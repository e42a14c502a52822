/** The frames of the extended transport protocol and their 8-byte layouts. */
module EtpFrames {
  import opened Widths
  import opened Segmentation

  const REQUEST_TO_SEND_MULTIPLEXOR: u8 := 0x14
  const CLEAR_TO_SEND_MULTIPLEXOR: u8 := 0x15
  const DATA_PACKET_OFFSET_MULTIPLEXOR: u8 := 0x16
  const END_OF_MESSAGE_ACKNOWLEDGE_MULTIPLEXOR: u8 := 0x17
  const CONNECTION_ABORT_MULTIPLEXOR: u8 := 0xFF

  const MAX_PROTOCOL_DATA_LENGTH := 117440505

  /** A frame as its handler receives it. Packet numbers and offsets have 24 bits on the bus. */
  datatype Frame =
    | Rts(size: u32, pgn: u24)
    | Cts(packets: u8, next: u24, pgn: u24)
    | Dpo(packets: u8, offset: u24, pgn: u24)
    | Eoma(size: u32, pgn: u24)
    | Abort(reason: u8, pgn: u24)
    | Data(sequence: u8, payload: Payload)

  datatype Channel = ConnectionManagement | DataTransfer

  /** What travels on the bus: one of the two parameter groups and its data bytes. */
  datatype Raw = Raw(group: Channel, bytes: seq<u8>)

  datatype Decoded = Ignored | Accepted(frame: Frame)

  function PgnBytes(pgn: u24): seq<u8> { [Byte0(pgn), Byte1(pgn), Byte2(pgn)] }

  function SizeBytes(size: u32): seq<u8> { [Byte0(size), Byte1(size), Byte2(size), Byte3(size)] }

  /** The buffers built by the `send_*` functions. */
  function Encode(frame: Frame): (raw: Raw)
    ensures |raw.bytes| == 8
  {
    match frame
    case Rts(size, pgn) =>
      Raw(ConnectionManagement, [REQUEST_TO_SEND_MULTIPLEXOR] + SizeBytes(size) + PgnBytes(pgn))
    case Cts(packets, next, pgn) =>
      Raw(ConnectionManagement, [CLEAR_TO_SEND_MULTIPLEXOR, packets, Byte0(next), Byte1(next), Byte2(next)] + PgnBytes(pgn))
    case Dpo(packets, offset, pgn) =>
      Raw(ConnectionManagement, [DATA_PACKET_OFFSET_MULTIPLEXOR, packets, Byte0(offset), Byte1(offset), Byte2(offset)] + PgnBytes(pgn))
    case Eoma(size, pgn) =>
      Raw(ConnectionManagement, [END_OF_MESSAGE_ACKNOWLEDGE_MULTIPLEXOR] + SizeBytes(size) + PgnBytes(pgn))
    case Abort(reason, pgn) =>
      Raw(ConnectionManagement, [CONNECTION_ABORT_MULTIPLEXOR, reason, 0xFF, 0xFF, 0xFF] + PgnBytes(pgn))
    case Data(sequence, payload) =>
      Raw(DataTransfer, [sequence] + payload)
  }

  /** `process_message` up to the call of the handler: frames of another length and
      connection management frames with an unknown multiplexor are ignored. */
  function Decode(raw: Raw): Decoded {
    if |raw.bytes| != 8 then Ignored
    else if raw.group == DataTransfer then Accepted(Data(raw.bytes[0], raw.bytes[1..]))
    else
      var pgn := Uint24At(raw.bytes, 5);
      var mux := raw.bytes[0];
      if mux == REQUEST_TO_SEND_MULTIPLEXOR then Accepted(Rts(Uint32At(raw.bytes, 1), pgn))
      else if mux == CLEAR_TO_SEND_MULTIPLEXOR then Accepted(Cts(raw.bytes[1], Uint24At(raw.bytes, 2), pgn))
      else if mux == DATA_PACKET_OFFSET_MULTIPLEXOR then Accepted(Dpo(raw.bytes[1], Uint24At(raw.bytes, 2), pgn))
      else if mux == END_OF_MESSAGE_ACKNOWLEDGE_MULTIPLEXOR then Accepted(Eoma(Uint32At(raw.bytes, 1), pgn))
      else if mux == CONNECTION_ABORT_MULTIPLEXOR then Accepted(Abort(raw.bytes[1], pgn))
      else Ignored
  }

  lemma ThreeBytes(x: u24)
    ensures Byte0(x) + 0x100 * Byte1(x) + 0x1_0000 * Byte2(x) == x
  {
    assert x / 0x1_0000 == (x / 0x100) / 0x100;
  }

  lemma FourBytes(x: u32)
    ensures Byte0(x) + 0x100 * Byte1(x) + 0x1_0000 * Byte2(x) + 0x100_0000 * Byte3(x) == x
  {
    assert x / 0x1_0000 == (x / 0x100) / 0x100;
    assert x / 0x100_0000 == (x / 0x1_0000) / 0x100;
  }

  /** Every frame a session can send reaches the handler with the same arguments. */
  lemma RoundTrip(frame: Frame)
    ensures Decode(Encode(frame)) == Accepted(frame)
  {
    match frame
    case Rts(size, pgn) => FourBytes(size); ThreeBytes(pgn);
    case Cts(packets, next, pgn) => ThreeBytes(next); ThreeBytes(pgn);
    case Dpo(packets, offset, pgn) => ThreeBytes(offset); ThreeBytes(pgn);
    case Eoma(size, pgn) => FourBytes(size); ThreeBytes(pgn);
    case Abort(reason, pgn) => ThreeBytes(pgn);
    case Data(sequence, payload) =>
      assert Encode(frame).bytes[1..] == payload;
  }

  /** Two different frames never have the same bytes. */
  lemma EncodeInjective(a: Frame, b: Frame)
    ensures Encode(a) == Encode(b) <==> a == b
  {
    RoundTrip(a);
    RoundTrip(b);
  }

  /** Which frames are ignored: those of another length, and control frames of another kind. */
  lemma IgnoredIff(raw: Raw)
    ensures Decode(raw).Ignored?
            <==> |raw.bytes| != 8 || (raw.group == ConnectionManagement && raw.bytes[0] !in {0x14, 0x15, 0x16, 0x17, 0xFF})
  {
  }

  /** The kind of a control frame is its first byte, its parameter group the last three, and the
      bytes of an abort without a meaning are 0xFF. */
  lemma ControlBytes(frame: Frame)
    requires !frame.Data?
    ensures var b := Encode(frame).bytes;
            && b[0] == (if frame.Rts? then 0x14 else if frame.Cts? then 0x15 else if frame.Dpo? then 0x16
                        else if frame.Eoma? then 0x17 else 0xFF)
            && Uint24At(b, 5) == frame.pgn && (frame.Abort? ==> b[2] == b[3] == b[4] == 0xFF)
  {
    ThreeBytes(frame.pgn);
  }

  /** 117440505 bytes is exactly the longest message whose packet numbers fit 24 bits. */
  lemma SizeLimitIsTight(length: nat)
    ensures PacketCount(length) < 0x100_0000 <==> length <= MAX_PROTOCOL_DATA_LENGTH
  {
  }
}
