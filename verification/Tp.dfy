/** One session of the transport protocol as a value, in connection mode or broadcast. All
    its counters are 8-bit numbers. The class `TpSession` does the same in place. */
module Tp {
  import opened Widths
  import opened Segmentation
  import opened TpFrames

  datatype State =
    | Idle
    | SendBroadcastAnnounce
    | SendRequestToSend
    | WaitForClearToSend
    | SendClearToSend
    | WaitForDataTransferPacket
    | SendDataTransferPackets
    | WaitForEndOfMessageAcknowledge

  const ALREADY_IN_CM_SESSION: u8 := 1
  const TIMEOUT: u8 := 3
  const CLEAR_TO_SEND_WHILE_TRANSFER_IN_PROGRESS: u8 := 4
  const UNEXPECTED_DATA_TRANSFER_PACKET: u8 := 6
  const BAD_SEQUENCE_NUMBER: u8 := 7
  const DUPLICATE_SEQUENCE_NUMBER: u8 := 8
  const ANY_OTHER_ERROR: u8 := 250

  datatype Config = Config(packetsPerCts: u8, framesPerUpdate: u8)

  type Bytes = d: seq<u8> | |d| < 0x1_0000

  datatype Direction = Transmit | Receive

  /** The packet count of a length, computed in 8 bits. */
  function PacketCount8(length: u16): u8 {
    Low8(Low8(length / 7) as int + if length % 7 > 0 then 1 else 0)
  }

  datatype Session = Session(
    direction: Direction,
    broadcast: bool,
    pgn: u24,
    data: Bytes,
    state: State,
    lastSequence: u8,
    acknowledged: u8,
    ctsPackets: u8,
    ctsMax: u8)
  {
    function TotalPackets(): u8 { PacketCount8(|data|) }

    function Remaining(): u8 { Low8(TotalPackets() as int - lastSequence as int) }

    function CtsRemaining(): u8 {
      Low8(ctsPackets as int - Low8(lastSequence as int - acknowledged as int) as int)
    }

    /** The data frame after the last one sent; its bytes depend on the sequence number alone. */
    function NextData(): Frame {
      Data(broadcast, Low8(lastSequence as int + 1), Packet(data, lastSequence))
    }

    function Advance(k: nat): Session {
      this.(lastSequence := Low8(lastSequence as int + k))
    }
  }

  datatype Fate = Open | Closed(success: bool)

  datatype Outcome = Outcome(session: Session, sent: seq<Frame>, fate: Fate, delivered: seq<Bytes>)

  function Offer(frame: Frame, answers: seq<bool>): seq<Frame> {
    if Accepts(answers, 0) then [frame] else []
  }

  function Stay(s: Session): Outcome { Outcome(s, [], Open, []) }

  /** There is nobody to send an abort to when a broadcast session is given up. */
  function AbortSession(s: Session, reason: u8, answers: seq<bool>): Outcome {
    Outcome(s, if s.broadcast then [] else Offer(Abort(reason, s.pgn), answers), Closed(false), [])
  }

  function AbortBoth(s: Session, reason: u8, otherPgn: u24, answers: seq<bool>): Outcome {
    var second := if Accepts(answers, 1) then [Abort(reason, otherPgn)] else [];
    Outcome(s, Offer(Abort(reason, s.pgn), answers) + second, Closed(false), [])
  }

  // ---- sending -----------------------------------------------------------------------

  function OpenTransmit(pgn: u24, message: Bytes, broadcast: bool, config: Config): Session {
    Session(Transmit, broadcast, pgn, message, if broadcast then SendBroadcastAnnounce else SendRequestToSend,
            0, 0, 0, config.packetsPerCts)
  }

  function SendBam(s: Session, answers: seq<bool>): Outcome {
    if Accepts(answers, 0)
    then Outcome(s.(state := SendDataTransferPackets), [Bam(|s.data|, s.TotalPackets(), s.pgn)], Open, [])
    else Stay(s)
  }

  function SendRts(s: Session, answers: seq<bool>): Outcome {
    if Accepts(answers, 0)
    then Outcome(s.(state := WaitForClearToSend), [Rts(|s.data|, s.TotalPackets(), s.ctsMax, s.pgn)], Open, [])
    else Stay(s)
  }

  /** The first limit applies alone when it applies; otherwise a window has 16 packets at most. */
  function CtsPackets(s: Session): u8 {
    if s.Remaining() > s.ctsMax then s.ctsMax
    else if s.Remaining() > 16 then 16
    else s.Remaining()
  }

  /** `send_clear_to_send` leaves the state to its caller. */
  function SendCts(s: Session, answers: seq<bool>): Outcome {
    if Accepts(answers, 0)
    then Outcome(s.(ctsPackets := CtsPackets(s), acknowledged := s.lastSequence),
                 [Cts(CtsPackets(s), Low8(s.lastSequence as int + 1), s.pgn)], Open, [])
    else Stay(s)
  }

  function FirstCts(s: Session, answers: seq<bool>): Outcome {
    var o := SendCts(s, answers);
    if Accepts(answers, 0) then o.(session := o.session.(state := WaitForDataTransferPacket)) else o
  }

  function FramesToSend(s: Session, config: Config): u8 {
    if s.broadcast then 1 else Min(s.CtsRemaining(), config.framesPerUpdate)
  }

  function AfterSending(s: Session, sent: seq<Frame>): Outcome {
    if s.Remaining() == 0 then
      if s.broadcast then Outcome(s, sent, Closed(true), [])
      else Outcome(s.(state := WaitForEndOfMessageAcknowledge), sent, Open, [])
    else if s.CtsRemaining() == 0 && !s.broadcast then Outcome(s.(state := WaitForClearToSend), sent, Open, [])
    else Outcome(s, sent, Open, [])
  }

  function SendData(s: Session, config: Config, answers: seq<bool>): Outcome {
    var k := Streak(answers, FramesToSend(s, config));
    AfterSending(s.Advance(k), seq(k, i requires 0 <= i < k => s.Advance(i).NextData()))
  }

  /** `update_state_machine`; `expired` tells whether the timeout that applies has passed and
      `early` whether the pause between two broadcast frames is not yet over. */
  function Update(s: Session, config: Config, answers: seq<bool>, expired: bool, early: bool): Outcome {
    match s.state
    case Idle => Stay(s)
    case SendBroadcastAnnounce => SendBam(s, answers)
    case SendRequestToSend => SendRts(s, answers)
    case WaitForClearToSend =>
      if !expired then Stay(s)
      else if s.ctsPackets > 0 then AbortSession(s, TIMEOUT, answers)
      else Outcome(s, [], Closed(false), [])
    case SendClearToSend => FirstCts(s, answers)
    case SendDataTransferPackets => if s.broadcast && early then Stay(s) else SendData(s, config, answers)
    case WaitForDataTransferPacket | WaitForEndOfMessageAcknowledge =>
      if expired then AbortSession(s, TIMEOUT, answers) else Stay(s)
  }

  function OnCts(s: Session, pgn: u24, packets: u8, next: u8, answers: seq<bool>): Outcome {
    if s.pgn != pgn then AbortBoth(s, CLEAR_TO_SEND_WHILE_TRANSFER_IN_PROGRESS, pgn, answers)
    else if next > s.TotalPackets() then AbortSession(s, BAD_SEQUENCE_NUMBER, answers)
    else if s.state != WaitForClearToSend then AbortSession(s, CLEAR_TO_SEND_WHILE_TRANSFER_IN_PROGRESS, answers)
    else
      var t := s.(acknowledged := Low8(next as int - 1), ctsPackets := packets);
      Stay(if packets != 0 then t.(state := SendDataTransferPackets) else t)
  }

  function OnEoma(s: Session): Outcome {
    if s.state == WaitForEndOfMessageAcknowledge
    then Outcome(s.(state := Idle), [], Closed(true), [])
    else Stay(s)
  }

  // ---- receiving ---------------------------------------------------------------------

  function OpenReceive(pgn: u24, size: u16, broadcast: bool, ctsMax: u8): Session {
    Session(Receive, broadcast, pgn, seq(size, i => 0),
            if broadcast then WaitForDataTransferPacket else SendClearToSend, 0, 0, 0, ctsMax)
  }

  function Accept(s: Session, sequence: u8, payload: Payload): Session
    requires 7 * s.lastSequence as int < |s.data|
  {
    s.(data := StoreAt(s.data, 7 * s.lastSequence as int, payload), lastSequence := sequence)
  }

  function AfterData(t: Session, answers: seq<bool>): Outcome {
    if t.Remaining() == 0 then
      Outcome(t, if t.broadcast then [] else Offer(Eoma(|t.data|, t.TotalPackets(), t.pgn), answers), Closed(true), [t.data])
    else if t.CtsRemaining() == 0 then SendCts(t, answers)
    else Stay(t)
  }

  function OnData(s: Session, sequence: u8, payload: Payload, answers: seq<bool>): Outcome {
    if s.state != WaitForDataTransferPacket then AbortSession(s, UNEXPECTED_DATA_TRANSFER_PACKET, answers)
    else if sequence == s.lastSequence then AbortSession(s, DUPLICATE_SEQUENCE_NUMBER, answers)
    else if sequence != s.lastSequence as int + 1 then AbortSession(s, BAD_SEQUENCE_NUMBER, answers)
    else if 7 * s.lastSequence as int >= |s.data| then AbortSession(s, ANY_OTHER_ERROR, answers)
    else AfterData(Accept(s, sequence, payload), answers)
  }
}
