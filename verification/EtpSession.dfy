/** A session of the extended transport protocol whose fields are updated in place. Every
    method does to the fields what the function of the same handler in `Etp` says. */
module EtpSessions {
  import opened Widths
  import opened Segmentation
  import opened EtpFrames
  import opened Etp

  /** The identity of a control function on the bus. */
  type ControlFunction = nat

  class EtpSession {
    const direction: Direction
    const pgn: u24
    const source: ControlFunction
    const destination: ControlFunction
    var data: Bytes
    var state: State
    var acknowledged: u32
    var offset: u32
    var lastSequence: u8
    var dpoPackets: u8
    var ctsLimit: u8

    function Model(): Session
      reads this
    {
      Session(direction, pgn, data, state, acknowledged, offset, lastSequence, dpoPackets, ctsLimit)
    }

    predicate Matches(source: ControlFunction, destination: ControlFunction) {
      this.source == source && this.destination == destination
    }

    constructor Transmit(pgn: u24, message: Bytes, source: ControlFunction, destination: ControlFunction)
      ensures Model() == OpenTransmit(pgn, message) && Matches(source, destination)
    {
      direction, this.pgn, data := Direction.Transmit, pgn, message;
      this.source, this.destination := source, destination;
      state, acknowledged, offset, lastSequence, dpoPackets, ctsLimit := SendRequestToSend, 0, 0, 0, 0, 0xFF;
    }

    constructor Receive(pgn: u24, size: u32, config: Config, source: ControlFunction, destination: ControlFunction)
      ensures Model() == OpenReceive(pgn, size, config) && Matches(source, destination)
    {
      direction, this.pgn, data := Direction.Receive, pgn, seq(size, i => 0);
      this.source, this.destination := source, destination;
      state, acknowledged, offset, lastSequence, dpoPackets := SendClearToSend, 0, 0, 0, 0;
      ctsLimit := config.packetsPerDpo;
    }

    /** Fills the 8-byte buffer of the next data frame. */
    method FillBuffer(buffer: array<u8>)
      requires buffer.Length == 8
      modifies buffer
      ensures Data(buffer[0], buffer[1..]) == Model().NextData()
    {
      buffer[0] := Low8(lastSequence as int + 1);
      var dataOffset: u32 := Low32(Model().LastPacket() as int * 7);
      for j := 0 to 7
        invariant buffer[0] == Low8(lastSequence as int + 1)
        invariant forall i | 0 <= i < j :: buffer[1 + i] == WrappedPacket(data, Model().LastPacket())[i]
      {
        var index := Low32(dataOffset as int + j);
        if index < |data| {
          buffer[1 + j] := data[index];
        } else {
          buffer[1 + j] := 0xFF;
        }
      }
      assert buffer[1..] == WrappedPacket(data, Model().LastPacket());
    }

    method SendDataTransferPackets(config: Config, answers: seq<bool>) returns (sent: seq<Frame>)
      modifies this`lastSequence, this`state
      ensures Outcome(Model(), sent, Open, []) == SendData(old(Model()), config, answers)
    {
      hide PacketCount, Session.NextData;
      var buffer := new u8[8];
      var framesToSend := FramesToSend(Model(), config);
      ghost var before := Model();
      sent := [];
      var i: nat := 0;
      while i < framesToSend && Accepts(answers, i)
        invariant i <= framesToSend && |sent| == i
        invariant fresh(buffer)
        invariant forall k | 0 <= k < i :: Accepts(answers, k)
        invariant Model() == before.Advance(i)
        invariant forall k | 0 <= k < i :: sent[k] == before.Advance(k).NextData()
      {
        FillBuffer(buffer);
        AdvanceOnce(before, i);
        sent := sent + [Data(buffer[0], buffer[1..])];
        lastSequence := Low8(lastSequence as int + 1);
        i := i + 1;
      }
      StreakIsUnique(answers, framesToSend, i);
      if Model().Remaining() == 0 {
        state := WaitForEndOfMessageAcknowledge;
      } else if Model().DpoRemaining() == 0 {
        state := WaitForClearToSend;
      }
    }

    method SendRequestToSendFrame(answers: seq<bool>) returns (sent: seq<Frame>)
      modifies this`state
      ensures Outcome(Model(), sent, Open, []) == SendRts(old(Model()), answers)
    {
      sent := Offer(Rts(|data|, pgn), answers);
      if Accepts(answers, 0) {
        state := WaitForClearToSend;
      }
    }

    method SendClearToSendFrame(answers: seq<bool>) returns (sent: seq<Frame>)
      modifies this`state, this`acknowledged
      ensures Outcome(Model(), sent, Open, []) == SendCts(old(Model()), answers)
    {
      var nextPacketNumber := Low32(Model().LastPacket() as int + 1);
      var packetLimit: u8 := ctsLimit;
      if packetLimit > Model().Remaining() {
        packetLimit := Model().Remaining();
      }
      sent := Offer(Cts(packetLimit, Low24(nextPacketNumber), pgn), answers);
      if Accepts(answers, 0) {
        acknowledged := Model().LastPacket();
        state := WaitForDataPacketOffset;
      }
    }

    method SendDataPacketOffsetFrame(config: Config, answers: seq<bool>) returns (sent: seq<Frame>)
      modifies this`state, this`dpoPackets, this`offset, this`lastSequence
      ensures Outcome(Model(), sent, Open, []) == SendDpo(old(Model()), config, answers)
    {
      var packets: u8 := 0xFF;
      if packets > Model().Remaining() {
        packets := Model().Remaining();
      }
      if packets > ctsLimit {
        packets := ctsLimit;
      }
      if packets > config.packetsPerDpo {
        packets := config.packetsPerDpo;
      }
      sent := Offer(Dpo(packets, Low24(Model().LastPacket()), pgn), answers);
      if Accepts(answers, 0) {
        dpoPackets, offset, lastSequence := packets, Model().LastPacket(), 0;
        state := State.SendDataTransferPackets;
      }
    }

    method UpdateStateMachine(config: Config, answers: seq<bool>, expired: bool) returns (sent: seq<Frame>, fate: Fate)
      modifies this`state, this`acknowledged, this`dpoPackets, this`offset, this`lastSequence
      ensures Outcome(Model(), sent, fate, []) == Update(old(Model()), config, answers, expired)
    {
      sent, fate := [], Open;
      match state
      case Idle =>
      case SendRequestToSend => sent := SendRequestToSendFrame(answers);
      case WaitForClearToSend =>
        if expired {
          if ctsLimit > 0 {
            sent := Offer(Abort(TIMEOUT, pgn), answers);
          }
          fate := Closed(false);
        }
      case SendClearToSend => sent := SendClearToSendFrame(answers);
      case SendDataPacketOffset => sent := SendDataPacketOffsetFrame(config, answers);
      case SendDataTransferPackets => sent := SendDataTransferPackets(config, answers);
      case WaitForDataPacketOffset | WaitForDataTransferPacket | WaitForEndOfMessageAcknowledge =>
        if expired {
          sent, fate := Offer(Abort(TIMEOUT, pgn), answers), Closed(false);
        }
    }

    method ProcessClearToSend(otherPgn: u24, packets: u8, next: u24, answers: seq<bool>) returns (sent: seq<Frame>, fate: Fate)
      modifies this`state, this`acknowledged, this`ctsLimit
      ensures Outcome(Model(), sent, fate, []) == OnCts(old(Model()), otherPgn, packets, next, answers)
    {
      sent, fate := [], Closed(false);
      if pgn != otherPgn {
        sent := AbortBoth(Model(), CLEAR_TO_SEND_WHILE_TRANSFER_IN_PROGRESS, otherPgn, answers).sent;
      } else if next > Model().TotalPackets() {
        sent := Offer(Abort(CLEAR_TO_SEND_EXCEEDS_MESSAGE, pgn), answers);
      } else if state != WaitForClearToSend {
        sent := Offer(Abort(CLEAR_TO_SEND_WHILE_TRANSFER_IN_PROGRESS, pgn), answers);
      } else {
        fate := Open;
        acknowledged := Low32(next as int - 1);
        ctsLimit := packets;
        if packets != 0 {
          state := SendDataPacketOffset;
        }
      }
    }

    method ProcessDataPacketOffset(otherPgn: u24, packets: u8, packetOffset: u24, answers: seq<bool>)
      returns (sent: seq<Frame>, fate: Fate)
      modifies this`state, this`dpoPackets, this`offset, this`lastSequence
      ensures Outcome(Model(), sent, fate, []) == OnDpo(old(Model()), otherPgn, packets, packetOffset, answers)
    {
      sent, fate := [], Closed(false);
      if pgn != otherPgn {
        sent := AbortBoth(Model(), UNEXPECTED_DATA_PACKET_OFFSET_PGN, otherPgn, answers).sent;
      } else if state != WaitForDataPacketOffset {
        sent := Offer(Abort(UNEXPECTED_DATA_PACKET_OFFSET, pgn), answers);
      } else if packets > ctsLimit {
        sent := Offer(Abort(DATA_PACKET_OFFSET_EXCEEDS_CLEAR_TO_SEND, pgn), answers);
      } else if packetOffset != acknowledged {
        sent := Offer(Abort(BAD_DATA_PACKET_OFFSET, pgn), answers);
      } else {
        fate := Open;
        dpoPackets, offset, lastSequence := packets, packetOffset, 0;
        if packets != 0 {
          state := WaitForDataTransferPacket;
        }
      }
    }

    method ProcessEndOfSessionAcknowledgement(size: u32) returns (fate: Fate)
      modifies this`state
      ensures Outcome(Model(), [], fate, []) == OnEoma(old(Model()), size)
    {
      fate := Open;
      if state == WaitForEndOfMessageAcknowledge {
        state := Idle;
        fate := Closed(size == |data|);
      }
    }

    method ProcessDataTransfer(sequence: u8, payload: Payload, answers: seq<bool>)
      returns (sent: seq<Frame>, fate: Fate, delivered: seq<Bytes>)
      modifies this`state, this`data, this`lastSequence, this`acknowledged
      ensures Outcome(Model(), sent, fate, delivered) == OnData(old(Model()), sequence, payload, answers)
    {
      sent, fate, delivered := [], Closed(false), [];
      if state != WaitForDataTransferPacket {
        sent := Offer(Abort(UNEXPECTED_DATA_TRANSFER_PACKET, pgn), answers);
      } else if sequence == lastSequence {
        sent := Offer(Abort(DUPLICATE_SEQUENCE_NUMBER, pgn), answers);
      } else if sequence == lastSequence as int + 1 {
        var index := DataIndex(Model());
        if index >= |data| {
          sent := Offer(Abort(ANY_OTHER_ERROR, pgn), answers);
          return;
        }
        data := CopyPayload(data, index, payload);
        lastSequence := sequence;
        if Model().Remaining() == 0 {
          sent, fate, delivered := Offer(Eoma(|data|, pgn), answers), Closed(true), [data];
        } else {
          fate := Open;
          if Model().DpoRemaining() == 0 {
            state := SendClearToSend;
            sent := SendClearToSendFrame(answers);
          }
        }
      } else {
        sent := Offer(Abort(BAD_SEQUENCE_NUMBER, pgn), answers);
      }
    }
  }

  lemma AdvanceOnce(s: Session, i: nat)
    ensures s.Advance(i).Advance(1) == s.Advance(i + 1)
  {
  }

  lemma StreakIsUnique(answers: seq<bool>, n: nat, k: nat)
    requires k <= n && (forall i | 0 <= i < k :: Accepts(answers, i)) && (k < n ==> !Accepts(answers, k))
    ensures Streak(answers, n) == k
  {
  }
}
