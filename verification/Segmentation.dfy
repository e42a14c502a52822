/** How a message is cut into 7-byte packets and put together again. Both
    transport protocols number packets from 1; here packet `k` starts at byte `7 * k`. */
module Segmentation {
  import opened Widths

  type Payload = p: seq<u8> | |p| == 7 witness [0, 0, 0, 0, 0, 0, 0]

  function PacketCount(length: nat): (n: nat)
    ensures 7 * n >= length
    ensures n > 0 ==> 7 * (n - 1) < length
  {
    length / 7 + if length % 7 > 0 then 1 else 0
  }

  /** The bytes that follow the sequence number in data frame `k`, padded with 0xFF. */
  function Packet(message: seq<u8>, k: nat): Payload {
    seq(7, j requires 0 <= j < 7 => if 7 * k + j < |message| then message[7 * k + j] else 0xFF)
  }

  /** The receiver's copy: at most 7 bytes, and never past the end of the buffer. */
  function StoreAt(buffer: seq<u8>, index: nat, payload: Payload): (stored: seq<u8>)
    requires index < |buffer|
    ensures |stored| == |buffer|
  {
    var n := Min(7, |buffer| - index);
    buffer[..index] + payload[..n] + buffer[index + n..]
  }

  /** Copies a payload into a buffer: short tails byte by byte, longer ones at once. */
  method CopyPayload(buffer: seq<u8>, index: nat, payload: Payload) returns (data: seq<u8>)
    requires index < |buffer|
    ensures data == StoreAt(buffer, index, payload)
  {
    data := buffer;
    var bytesToCopy := Min(7, |data| - index);
    if bytesToCopy <= 4 {
      var i := 0;
      while i < bytesToCopy
        invariant 0 <= i <= bytesToCopy
        invariant data == buffer[..index] + payload[..i] + buffer[index + i..]
      {
        data := data[index + i := payload[i]];
        i := i + 1;
      }
    } else {
      data := data[..index] + payload[..bytesToCopy] + data[index + bytesToCopy..];
    }
  }

  /** How many bytes the first `k` packets of a message of this length fill. */
  function Filled(length: nat, k: nat): (n: nat)
    ensures n <= length
  {
    Min(7 * k, length)
  }

  /** Storing a packet behind a filled prefix fills the place of that packet. */
  lemma StoreAppends(buffer: seq<u8>, k: nat, bytes: seq<u8>, payload: Payload)
    requires 7 * k < |buffer| && |bytes| == 7 * k && buffer[..7 * k] == bytes
    ensures var filled := Filled(|buffer|, k + 1);
            StoreAt(buffer, 7 * k, payload)[..filled] == (bytes + payload)[..filled]
  {
  }

  /** Storing the next packet of a message extends the correct prefix by one packet. */
  lemma StoreExtends(buffer: seq<u8>, message: seq<u8>, k: nat)
    requires |buffer| == |message| && 7 * k < |message|
    requires buffer[..Filled(|message|, k)] == message[..Filled(|message|, k)]
    ensures var stored := StoreAt(buffer, 7 * k, Packet(message, k));
            stored[..Filled(|message|, k + 1)] == message[..Filled(|message|, k + 1)]
  {
    var filled := Filled(|message|, k + 1);
    StoreAppends(buffer, k, message[..7 * k], Packet(message, k));
    assert (message[..7 * k] + Packet(message, k))[..filled] == message[..filled];
  }

  /** Once the last packet is stored the buffer is the message. */
  lemma AllFilled(length: nat, k: nat)
    requires k >= PacketCount(length)
    ensures Filled(length, k) == length
  {
  }
}
