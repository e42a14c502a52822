/** The frames of the transport protocol and their 8-byte layouts. */
module TpFrames {
  import opened Widths
  import opened Segmentation
  import EtpFrames

  const REQUEST_TO_SEND_MULTIPLEXOR: u8 := 0x10
  const CLEAR_TO_SEND_MULTIPLEXOR: u8 := 0x11
  const END_OF_MESSAGE_ACKNOWLEDGE_MULTIPLEXOR: u8 := 0x13
  const BROADCAST_ANNOUNCE_MESSAGE_MULTIPLEXOR: u8 := 0x20
  const CONNECTION_ABORT_MULTIPLEXOR: u8 := 0xFF

  const MAX_PROTOCOL_DATA_LENGTH := 1785

  datatype Frame =
    | Bam(size: u16, packets: u8, pgn: u24)
    | Rts(size: u16, packets: u8, max: u8, pgn: u24)
    | Cts(packets: u8, next: u8, pgn: u24)
    | Eoma(size: u16, packets: u8, pgn: u24)
    | Abort(reason: u8, pgn: u24)
    | Data(broadcast: bool, sequence: u8, payload: Payload)

  datatype Channel = ConnectionManagement | DataTransfer

  /** What travels on the bus, and whether it is addressed to everybody. */
  datatype Raw = Raw(group: Channel, broadcast: bool, bytes: seq<u8>)

  datatype Decoded = Ignored | Accepted(frame: Frame)

  function PgnBytes(pgn: u24): seq<u8> { [Byte0(pgn), Byte1(pgn), Byte2(pgn)] }

  /** The buffers built by the `send_*` functions. */
  function Encode(frame: Frame): (raw: Raw)
    ensures |raw.bytes| == 8
  {
    match frame
    case Bam(size, packets, pgn) =>
      Raw(ConnectionManagement, true,
          [BROADCAST_ANNOUNCE_MESSAGE_MULTIPLEXOR, Byte0(size), Byte1(size), packets, 0xFF] + PgnBytes(pgn))
    case Rts(size, packets, max, pgn) =>
      Raw(ConnectionManagement, false, [REQUEST_TO_SEND_MULTIPLEXOR, Byte0(size), Byte1(size), packets, max] + PgnBytes(pgn))
    case Cts(packets, next, pgn) =>
      Raw(ConnectionManagement, false, [CLEAR_TO_SEND_MULTIPLEXOR, packets, next, 0xFF, 0xFF] + PgnBytes(pgn))
    case Eoma(size, packets, pgn) =>
      Raw(ConnectionManagement, false,
          [END_OF_MESSAGE_ACKNOWLEDGE_MULTIPLEXOR, Byte0(size), Byte1(size), packets, 0xFF] + PgnBytes(pgn))
    case Abort(reason, pgn) =>
      Raw(ConnectionManagement, false, [CONNECTION_ABORT_MULTIPLEXOR, reason, 0xFF, 0xFF, 0xFF] + PgnBytes(pgn))
    case Data(broadcast, sequence, payload) =>
      Raw(DataTransfer, broadcast, [sequence] + payload)
  }

  /** `process_message` up to the call of the handler. An announcement must be addressed to
      everybody and every other control frame must not be. */
  function Decode(raw: Raw): Decoded {
    if |raw.bytes| != 8 then Ignored
    else if raw.group == DataTransfer then Accepted(Data(raw.broadcast, raw.bytes[0], raw.bytes[1..]))
    else
      var b := raw.bytes;
      var pgn := Uint24At(b, 5);
      if b[0] == BROADCAST_ANNOUNCE_MESSAGE_MULTIPLEXOR && raw.broadcast then Accepted(Bam(Uint16At(b, 1), b[3], pgn))
      else if raw.broadcast then Ignored
      else if b[0] == REQUEST_TO_SEND_MULTIPLEXOR then Accepted(Rts(Uint16At(b, 1), b[3], b[4], pgn))
      else if b[0] == CLEAR_TO_SEND_MULTIPLEXOR then Accepted(Cts(b[1], b[2], pgn))
      else if b[0] == END_OF_MESSAGE_ACKNOWLEDGE_MULTIPLEXOR then Accepted(Eoma(Uint16At(b, 1), b[3], pgn))
      else if b[0] == CONNECTION_ABORT_MULTIPLEXOR then Accepted(Abort(b[1], pgn))
      else Ignored
  }

  /** Every frame a session can send reaches the handler with the same arguments. */
  lemma RoundTrip(frame: Frame)
    ensures Decode(Encode(frame)) == Accepted(frame)
  {
    if frame.Data? {
      assert Encode(frame).bytes[1..] == frame.payload;
    } else {
      EtpFrames.ThreeBytes(frame.pgn);
    }
  }

  /** Two different frames never have the same bytes and the same addressing. */
  lemma EncodeInjective(a: Frame, b: Frame)
    ensures Encode(a) == Encode(b) <==> a == b
  {
    RoundTrip(a);
    RoundTrip(b);
  }

  /** Which frames are ignored: those of another length, control frames of another kind, and those
      that are addressed to everybody without being an announcement, or the other way round. */
  lemma IgnoredIff(raw: Raw)
    ensures Decode(raw).Ignored?
            <==> |raw.bytes| != 8 || (raw.group == ConnectionManagement
                                      && raw.bytes[0] !in if raw.broadcast then {0x20} else {0x10, 0x11, 0x13, 0xFF})
  {
  }

  /** The kind of a control frame is its first byte, its parameter group the last three, and the
      bytes without a meaning are 0xFF. */
  lemma ControlBytes(frame: Frame)
    requires !frame.Data?
    ensures var b := Encode(frame).bytes;
            && b[0] == (if frame.Bam? then 0x20 else if frame.Rts? then 0x10 else if frame.Cts? then 0x11
                        else if frame.Eoma? then 0x13 else 0xFF)
            && Uint24At(b, 5) == frame.pgn && (frame.Bam? || frame.Eoma? ==> b[4] == 0xFF)
            && (frame.Cts? || frame.Abort? ==> b[3] == b[4] == 0xFF) && (frame.Abort? ==> b[2] == 0xFF)
  {
    EtpFrames.ThreeBytes(frame.pgn);
  }
}
