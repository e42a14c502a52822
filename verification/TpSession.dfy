/** A session of the transport protocol whose fields are updated in place. Every method does
    to the fields what the function of the same handler in `Tp` says. */
module TpSessions {
  import opened Widths
  import opened Segmentation
  import opened TpFrames
  import opened Tp
  import EtpSessions

  type ControlFunction = EtpSessions.ControlFunction

  /** A broadcast session has no destination. */
  datatype Destination = Everybody | Only(partner: ControlFunction)

  class TpSession {
    const direction: Direction
    const pgn: u24
    const source: ControlFunction
    const destination: Destination
    const ctsMax: u8
    var data: Bytes
    var state: State
    var lastSequence: u8
    var acknowledged: u8
    var ctsPackets: u8

    function Model(): Session
      reads this
    {
      Session(direction, destination.Everybody?, pgn, data, state, lastSequence, acknowledged, ctsPackets, ctsMax)
    }

    predicate Matches(source: ControlFunction, destination: Destination) {
      this.source == source && this.destination == destination
    }

    constructor Transmit(pgn: u24, message: Bytes, source: ControlFunction, destination: Destination, config: Config)
      ensures Model() == OpenTransmit(pgn, message, destination.Everybody?, config)
      ensures Matches(source, destination)
    {
      direction, this.pgn, data, ctsMax := Direction.Transmit, pgn, message, config.packetsPerCts;
      this.source, this.destination := source, destination;
      state := if destination.Everybody? then State.SendBroadcastAnnounce else State.SendRequestToSend;
      lastSequence, acknowledged, ctsPackets := 0, 0, 0;
    }

    constructor Receive(pgn: u24, size: u16, source: ControlFunction, destination: Destination, ctsMax: u8)
      ensures Model() == OpenReceive(pgn, size, destination.Everybody?, ctsMax)
      ensures Matches(source, destination)
    {
      direction, this.pgn, data, this.ctsMax := Direction.Receive, pgn, seq(size, i => 0), ctsMax;
      this.source, this.destination := source, destination;
      state := if destination.Everybody? then State.WaitForDataTransferPacket else State.SendClearToSend;
      lastSequence, acknowledged, ctsPackets := 0, 0, 0;
    }

    /** Fills the 8-byte buffer of the next data frame. */
    method FillBuffer(buffer: array<u8>)
      requires buffer.Length == 8
      modifies buffer
      ensures Data(destination.Everybody?, buffer[0], buffer[1..]) == Model().NextData()
    {
      buffer[0] := Low8(lastSequence as int + 1);
      var dataOffset: u16 := Low16(lastSequence as int * 7);
      for j := 0 to 7
        invariant buffer[0] == Low8(lastSequence as int + 1)
        invariant forall i | 0 <= i < j :: buffer[1 + i] == Packet(data, lastSequence)[i]
      {
        var index := Low16(dataOffset as int + j);
        if index < |data| {
          buffer[1 + j] := data[index];
        } else {
          buffer[1 + j] := 0xFF;
        }
      }
      assert buffer[1..] == Packet(data, lastSequence);
    }

    method SendDataTransferPackets(config: Config, answers: seq<bool>) returns (sent: seq<Frame>, fate: Fate)
      modifies this`lastSequence, this`state
      ensures Outcome(Model(), sent, fate, []) == SendData(old(Model()), config, answers)
    {
      hide PacketCount8, Session.NextData;
      var buffer := new u8[8];
      var framesToSend := Model().CtsRemaining();
      if destination.Everybody? {
        framesToSend := 1;
      } else if framesToSend > config.framesPerUpdate {
        framesToSend := config.framesPerUpdate;
      }
      ghost var before := Model();
      sent := [];
      var i: nat := 0;
      while i < framesToSend && Accepts(answers, i)
        invariant i <= framesToSend && |sent| == i
        invariant fresh(buffer)
        invariant forall k | 0 <= k < i :: Accepts(answers, k)
        invariant Model() == before.Advance(i)
        invariant forall k | 0 <= k < i :: sent[k] == before.Advance(k).NextData()
      {
        FillBuffer(buffer);
        sent := sent + [Data(destination.Everybody?, buffer[0], buffer[1..])];
        AdvanceOnce(before, i);
        lastSequence := Low8(lastSequence as int + 1);
        i := i + 1;
      }
      EtpSessions.StreakIsUnique(answers, framesToSend, i);
      fate := Open;
      if Model().Remaining() == 0 {
        if destination.Everybody? {
          fate := Closed(true);
        } else {
          state := WaitForEndOfMessageAcknowledge;
        }
      } else if Model().CtsRemaining() == 0 && !destination.Everybody? {
        state := WaitForClearToSend;
      }
    }

    /** `send_clear_to_send`; the caller decides about the state. */
    method SendClearToSendFrame(answers: seq<bool>) returns (sent: seq<Frame>, ok: bool)
      modifies this`ctsPackets, this`acknowledged
      ensures Outcome(Model(), sent, Open, []) == SendCts(old(Model()), answers)
      ensures ok == Accepts(answers, 0)
    {
      var packetsThisSegment: u8 := Model().Remaining();
      if packetsThisSegment > ctsMax {
        packetsThisSegment := ctsMax;
      } else if packetsThisSegment > 16 {
        packetsThisSegment := 16;
      }
      sent := Offer(Cts(packetsThisSegment, Low8(lastSequence as int + 1), pgn), answers);
      ok := Accepts(answers, 0);
      if ok {
        ctsPackets, acknowledged := packetsThisSegment, lastSequence;
      }
    }

    method UpdateStateMachine(config: Config, answers: seq<bool>, expired: bool, early: bool)
      returns (sent: seq<Frame>, fate: Fate)
      modifies this`state, this`acknowledged, this`lastSequence, this`ctsPackets
      ensures Outcome(Model(), sent, fate, []) == Update(old(Model()), config, answers, expired, early)
    {
      hide PacketCount8, SendData;
      sent, fate := [], Open;
      match state
      case Idle =>
      case SendBroadcastAnnounce =>
        sent := Offer(Bam(|data|, Model().TotalPackets(), pgn), answers);
        if Accepts(answers, 0) {
          state := State.SendDataTransferPackets;
        }
      case SendRequestToSend =>
        sent := Offer(Rts(|data|, Model().TotalPackets(), ctsMax, pgn), answers);
        if Accepts(answers, 0) {
          state := WaitForClearToSend;
        }
      case WaitForClearToSend =>
        if expired {
          if ctsPackets > 0 {
            sent := AbortSession(Model(), TIMEOUT, answers).sent;
          }
          fate := Closed(false);
        }
      case SendClearToSend =>
        var ok;
        sent, ok := SendClearToSendFrame(answers);
        if ok {
          state := WaitForDataTransferPacket;
        }
      case SendDataTransferPackets =>
        if !(destination.Everybody? && early) {
          sent, fate := SendDataTransferPackets(config, answers);
        }
      case WaitForDataTransferPacket | WaitForEndOfMessageAcknowledge =>
        if expired {
          sent, fate := AbortSession(Model(), TIMEOUT, answers).sent, Closed(false);
        }
    }

    method ProcessClearToSend(otherPgn: u24, packets: u8, next: u8, answers: seq<bool>) returns (sent: seq<Frame>, fate: Fate)
      modifies this`state, this`acknowledged, this`ctsPackets
      ensures Outcome(Model(), sent, fate, []) == OnCts(old(Model()), otherPgn, packets, next, answers)
    {
      hide PacketCount8;
      sent, fate := [], Closed(false);
      if pgn != otherPgn {
        sent := AbortBoth(Model(), CLEAR_TO_SEND_WHILE_TRANSFER_IN_PROGRESS, otherPgn, answers).sent;
      } else if next > Model().TotalPackets() {
        sent := AbortSession(Model(), BAD_SEQUENCE_NUMBER, answers).sent;
      } else if state != WaitForClearToSend {
        sent := AbortSession(Model(), CLEAR_TO_SEND_WHILE_TRANSFER_IN_PROGRESS, answers).sent;
      } else {
        fate := Open;
        acknowledged := Low8(next as int - 1);
        ctsPackets := packets;
        if packets != 0 {
          state := State.SendDataTransferPackets;
        }
      }
    }

    method ProcessEndOfSessionAcknowledgement() returns (fate: Fate)
      modifies this`state
      ensures Outcome(Model(), [], fate, []) == OnEoma(old(Model()))
    {
      fate := Open;
      if state == WaitForEndOfMessageAcknowledge {
        state := Idle;
        fate := Closed(true);
      }
    }

    method ProcessDataTransfer(sequence: u8, payload: Payload, answers: seq<bool>)
      returns (sent: seq<Frame>, fate: Fate, delivered: seq<Bytes>)
      modifies this`data, this`lastSequence, this`acknowledged, this`ctsPackets
      ensures Outcome(Model(), sent, fate, delivered) == OnData(old(Model()), sequence, payload, answers)
    {
      hide PacketCount8;
      sent, fate, delivered := [], Closed(false), [];
      if state != WaitForDataTransferPacket {
        sent := AbortSession(Model(), UNEXPECTED_DATA_TRANSFER_PACKET, answers).sent;
      } else if sequence == lastSequence {
        sent := AbortSession(Model(), DUPLICATE_SEQUENCE_NUMBER, answers).sent;
      } else if sequence == lastSequence as int + 1 {
        var index := 7 * lastSequence as int;
        if index >= |data| {
          sent := AbortSession(Model(), ANY_OTHER_ERROR, answers).sent;
          return;
        }
        data := CopyPayload(data, index, payload);
        lastSequence := sequence;
        if Model().Remaining() == 0 {
          if !destination.Everybody? {
            sent := Offer(Eoma(|data|, Model().TotalPackets(), pgn), answers);
          }
          fate, delivered := Closed(true), [data];
        } else {
          fate := Open;
          if Model().CtsRemaining() == 0 {
            var ok;
            sent, ok := SendClearToSendFrame(answers);
          }
        }
      } else {
        sent := AbortSession(Model(), BAD_SEQUENCE_NUMBER, answers).sent;
      }
    }
  }

  lemma AdvanceOnce(s: Session, i: nat)
    ensures s.Advance(i).Advance(1) == s.Advance(i + 1)
  {
    hide Low8;
    Low8Step(s.lastSequence, i);
  }
}
