/** One session of the extended transport protocol as a value, and what each handler
    makes of it. The class `EtpSession` does the same in place. */
module Etp {
  import opened Widths
  import opened Segmentation
  import opened EtpFrames

  datatype State =
    | Idle
    | SendRequestToSend
    | WaitForClearToSend
    | SendClearToSend
    | WaitForDataPacketOffset
    | SendDataPacketOffset
    | WaitForDataTransferPacket
    | SendDataTransferPackets
    | WaitForEndOfMessageAcknowledge

  const TIMEOUT: u8 := 3
  const ALREADY_IN_CM_SESSION: u8 := 1
  const CLEAR_TO_SEND_WHILE_TRANSFER_IN_PROGRESS: u8 := 4
  const UNEXPECTED_DATA_TRANSFER_PACKET: u8 := 6
  const BAD_SEQUENCE_NUMBER: u8 := 7
  const DUPLICATE_SEQUENCE_NUMBER: u8 := 8
  const UNEXPECTED_DATA_PACKET_OFFSET: u8 := 9
  const UNEXPECTED_DATA_PACKET_OFFSET_PGN: u8 := 10
  const DATA_PACKET_OFFSET_EXCEEDS_CLEAR_TO_SEND: u8 := 11
  const BAD_DATA_PACKET_OFFSET: u8 := 12
  const CLEAR_TO_SEND_EXCEEDS_MESSAGE: u8 := 15
  const ANY_OTHER_ERROR: u8 := 250

  /** The two settings of the network configuration that the protocol reads. */
  datatype Config = Config(packetsPerDpo: u8, framesPerUpdate: u8)

  type Bytes = d: seq<u8> | |d| < 0x1_0000_0000

  datatype Direction = Transmit | Receive

  datatype Session = Session(
    direction: Direction,
    pgn: u24,
    data: Bytes,
    state: State,
    acknowledged: u32,
    offset: u32,
    lastSequence: u8,
    dpoPackets: u8,
    ctsLimit: u8)
  {
    function LastPacket(): u32 { Low32(lastSequence as int + offset as int) }

    function TotalPackets(): u32 { PacketCount(|data|) }

    function Remaining(): u32 { Low32(TotalPackets() as int - LastPacket() as int) }

    function DpoRemaining(): u8 {
      Low8(dpoPackets as int - Low8(LastPacket() as int - acknowledged as int) as int)
    }

    /** The data frame after the last one sent. Its bytes are indexed with 32-bit arithmetic. */
    function NextData(): Frame {
      Data(Low8(lastSequence as int + 1), WrappedPacket(data, LastPacket()))
    }

    function Advance(k: nat): Session {
      this.(lastSequence := Low8(lastSequence as int + k))
    }
  }

  function WrappedIndex(packet: u32, j: nat): u32 { Low32(Low32(packet as int * 7) as int + j) }

  function WrappedPacket(message: seq<u8>, packet: u32): Payload {
    seq(7, j requires 0 <= j < 7 =>
      if WrappedIndex(packet, j) < |message| then message[WrappedIndex(packet, j)] else 0xFF)
  }

  lemma NoWrapBelowMaximum(message: seq<u8>, packet: u32)
    requires packet < 0x100_0000
    ensures WrappedPacket(message, packet) == Packet(message, packet)
  {
  }

  /** What is left of the session after a call: it stays in the table or is closed, and a
      closed transmit session reports success or failure to its owner. */
  datatype Fate = Open | Closed(success: bool)

  datatype Outcome = Outcome(session: Session, sent: seq<Frame>, fate: Fate, delivered: seq<Bytes>)

  function Offer(frame: Frame, answers: seq<bool>): seq<Frame> {
    if Accepts(answers, 0) then [frame] else []
  }

  function Stay(s: Session): Outcome { Outcome(s, [], Open, []) }

  function AbortSession(s: Session, reason: u8, answers: seq<bool>): Outcome {
    Outcome(s, Offer(Abort(reason, s.pgn), answers), Closed(false), [])
  }

  /** Aborting our session and the foreign one takes two frames, each of which may be refused. */
  function AbortBoth(s: Session, reason: u8, otherPgn: u24, answers: seq<bool>): Outcome {
    var first := Offer(Abort(reason, s.pgn), answers);
    var second := if Accepts(answers, 1) then [Abort(reason, otherPgn)] else [];
    Outcome(s, first + second, Closed(false), [])
  }

  // ---- sending -----------------------------------------------------------------------

  function OpenTransmit(pgn: u24, message: Bytes): Session {
    Session(Transmit, pgn, message, SendRequestToSend, 0, 0, 0, 0, 0xFF)
  }

  function SendRts(s: Session, answers: seq<bool>): Outcome {
    if Accepts(answers, 0)
    then Outcome(s.(state := WaitForClearToSend), [Rts(|s.data|, s.pgn)], Open, [])
    else Stay(s)
  }

  function CtsPackets(s: Session): u8 {
    if s.ctsLimit > s.Remaining() then s.Remaining() else s.ctsLimit
  }

  function SendCts(s: Session, answers: seq<bool>): Outcome {
    if Accepts(answers, 0)
    then Outcome(s.(acknowledged := s.LastPacket(), state := WaitForDataPacketOffset),
                 [Cts(CtsPackets(s), Low24(s.LastPacket() as int + 1), s.pgn)], Open, [])
    else Stay(s)
  }

  function DpoPackets(s: Session, config: Config): u8 {
    Min(Min(Min(0xFF, s.Remaining()), s.ctsLimit), config.packetsPerDpo)
  }

  function SendDpo(s: Session, config: Config, answers: seq<bool>): Outcome {
    if Accepts(answers, 0)
    then Outcome(s.(dpoPackets := DpoPackets(s, config), offset := s.LastPacket(), lastSequence := 0,
                    state := SendDataTransferPackets),
                 [Dpo(DpoPackets(s, config), Low24(s.LastPacket()), s.pgn)], Open, [])
    else Stay(s)
  }

  function FramesToSend(s: Session, config: Config): u8 { Min(s.DpoRemaining(), config.framesPerUpdate) }

  function AfterSending(s: Session): Session {
    if s.Remaining() == 0 then s.(state := WaitForEndOfMessageAcknowledge)
    else if s.DpoRemaining() == 0 then s.(state := WaitForClearToSend)
    else s
  }

  function SendData(s: Session, config: Config, answers: seq<bool>): Outcome {
    var k := Streak(answers, FramesToSend(s, config));
    Outcome(AfterSending(s.Advance(k)), seq(k, i requires 0 <= i < k => s.Advance(i).NextData()), Open, [])
  }

  /** `update_state_machine`; `expired` tells whether the timeout of the current state has passed. */
  function Update(s: Session, config: Config, answers: seq<bool>, expired: bool): Outcome {
    match s.state
    case Idle => Stay(s)
    case SendRequestToSend => SendRts(s, answers)
    case WaitForClearToSend =>
      if !expired then Stay(s)
      else if s.ctsLimit > 0 then AbortSession(s, TIMEOUT, answers)
      else Outcome(s, [], Closed(false), [])
    case SendClearToSend => SendCts(s, answers)
    case SendDataPacketOffset => SendDpo(s, config, answers)
    case SendDataTransferPackets => SendData(s, config, answers)
    case WaitForDataPacketOffset | WaitForDataTransferPacket | WaitForEndOfMessageAcknowledge =>
      if expired then AbortSession(s, TIMEOUT, answers) else Stay(s)
  }

  function OnCts(s: Session, pgn: u24, packets: u8, next: u24, answers: seq<bool>): Outcome {
    if s.pgn != pgn then AbortBoth(s, CLEAR_TO_SEND_WHILE_TRANSFER_IN_PROGRESS, pgn, answers)
    else if next > s.TotalPackets() then AbortSession(s, CLEAR_TO_SEND_EXCEEDS_MESSAGE, answers)
    else if s.state != WaitForClearToSend then AbortSession(s, CLEAR_TO_SEND_WHILE_TRANSFER_IN_PROGRESS, answers)
    else
      var t := s.(acknowledged := Low32(next as int - 1), ctsLimit := packets);
      Stay(if packets != 0 then t.(state := SendDataPacketOffset) else t)
  }

  function OnEoma(s: Session, size: u32): Outcome {
    if s.state == WaitForEndOfMessageAcknowledge
    then Outcome(s.(state := Idle), [], Closed(size == |s.data|), [])
    else Stay(s)
  }

  // ---- receiving ---------------------------------------------------------------------

  function OpenReceive(pgn: u24, size: u32, config: Config): Session {
    Session(Receive, pgn, seq(size, i => 0), SendClearToSend, 0, 0, 0, 0, config.packetsPerDpo)
  }

  function OnDpo(s: Session, pgn: u24, packets: u8, packetOffset: u24, answers: seq<bool>): Outcome {
    if s.pgn != pgn then AbortBoth(s, UNEXPECTED_DATA_PACKET_OFFSET_PGN, pgn, answers)
    else if s.state != WaitForDataPacketOffset then AbortSession(s, UNEXPECTED_DATA_PACKET_OFFSET, answers)
    else if packets > s.ctsLimit then AbortSession(s, DATA_PACKET_OFFSET_EXCEEDS_CLEAR_TO_SEND, answers)
    else if packetOffset != s.acknowledged then AbortSession(s, BAD_DATA_PACKET_OFFSET, answers)
    else
      var t := s.(dpoPackets := packets, offset := packetOffset, lastSequence := 0);
      Stay(if packets != 0 then t.(state := WaitForDataTransferPacket) else t)
  }

  /** The index at which `process_data_transfer_message` stores, in 32-bit arithmetic. */
  function DataIndex(s: Session): u32 { Low32(7 * s.LastPacket() as int) }

  function Accept(s: Session, sequence: u8, payload: Payload): Session
    requires DataIndex(s) < |s.data|
  {
    s.(data := StoreAt(s.data, DataIndex(s), payload), lastSequence := sequence)
  }

  function AfterData(t: Session, answers: seq<bool>): Outcome {
    if t.Remaining() == 0 then Outcome(t, Offer(Eoma(|t.data|, t.pgn), answers), Closed(true), [t.data])
    else if t.DpoRemaining() == 0 then SendCts(t.(state := SendClearToSend), answers)
    else Stay(t)
  }

  function OnData(s: Session, sequence: u8, payload: Payload, answers: seq<bool>): Outcome {
    if s.state != WaitForDataTransferPacket then AbortSession(s, UNEXPECTED_DATA_TRANSFER_PACKET, answers)
    else if sequence == s.lastSequence then AbortSession(s, DUPLICATE_SEQUENCE_NUMBER, answers)
    else if sequence != s.lastSequence as int + 1 then AbortSession(s, BAD_SEQUENCE_NUMBER, answers)
    else if DataIndex(s) >= |s.data| then AbortSession(s, ANY_OTHER_ERROR, answers)
    else AfterData(Accept(s, sequence, payload), answers)
  }
}
