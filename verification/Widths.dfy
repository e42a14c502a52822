/** The fixed-width unsigned integers of the source, their truncating casts, and
    the little-endian byte order in which the protocols put them on the bus. */
module Widths {

  type u8 = x: int | 0 <= x < 0x100
  type u16 = x: int | 0 <= x < 0x1_0000
  type u24 = x: int | 0 <= x < 0x100_0000
  type u32 = x: int | 0 <= x < 0x1_0000_0000

  /** `static_cast<std::uint8_t>` and the wrap-around of 8-bit arithmetic. */
  function Low8(x: int): u8 { x % 0x100 }

  function Low16(x: int): u16 { x % 0x1_0000 }

  function Low24(x: int): u24 { x % 0x100_0000 }

  function Low32(x: int): u32 { x % 0x1_0000_0000 }

  /** Byte `i` of the little-endian form, `(x >> (8 * i)) & 0xFF`. */
  function Byte0(x: nat): u8 { x % 0x100 }

  function Byte1(x: nat): u8 { (x / 0x100) % 0x100 }

  function Byte2(x: nat): u8 { (x / 0x1_0000) % 0x100 }

  function Byte3(x: nat): u8 { (x / 0x100_0000) % 0x100 }

  /** The decoders of `CANMessage`; an OR of disjoint bytes is their sum. */
  function Uint16At(bytes: seq<u8>, i: nat): u16
    requires i + 2 <= |bytes|
  {
    bytes[i] as int + 0x100 * bytes[i + 1] as int
  }

  function Uint24At(bytes: seq<u8>, i: nat): u24
    requires i + 3 <= |bytes|
  {
    bytes[i] as int + 0x100 * bytes[i + 1] as int + 0x1_0000 * bytes[i + 2] as int
  }

  function Uint32At(bytes: seq<u8>, i: nat): u32
    requires i + 4 <= |bytes|
  {
    bytes[i] as int + 0x100 * bytes[i + 1] as int + 0x1_0000 * bytes[i + 2] as int + 0x100_0000 * bytes[i + 3] as int
  }

  function Word(x: u16): (b: seq<u8>)
    ensures |b| == 2
  {
    [Byte0(x), Byte1(x)]
  }

  function Quad(x: u32): (b: seq<u8>)
    ensures |b| == 4
  {
    [Byte0(x), Byte1(x), Byte2(x), Byte3(x)]
  }

  function Words(words: seq<u16>): (b: seq<u8>)
    ensures |b| == 2 * |words|
  {
    if words == [] then [] else Word(words[0]) + Words(words[1..])
  }

  function Min(a: int, b: int): int { if a <= b then a else b }

  /** The answers of the transmit callback during one call, in the order in which
      frames are offered. A frame offered past the end is refused. */
  predicate Accepts(answers: seq<bool>, i: nat) { i < |answers| && answers[i] }

  /** How many of `n` frames go out when sending stops at the first refusal. */
  function Streak(answers: seq<bool>, n: nat): (k: nat)
    ensures k <= n
    ensures forall i | 0 <= i < k :: Accepts(answers, i)
    ensures k < n ==> !Accepts(answers, k)
  {
    if n == 0 then 0
    else
      var before := Streak(answers, n - 1);
      if before == n - 1 && Accepts(answers, before) then n else before
  }

  /** Counting one by one in 8 bits is counting at once. */
  lemma Low8Step(x: nat, i: nat)
    ensures Low8(Low8(x + i) as int + 1) == Low8(x + i + 1)
  {
  }

  lemma Low8Shift(x: int, m: int)
    ensures Low8(x + 0x100 * m) == Low8(x)
  {
  }

  /** What is left in 8 bits falls by `k` when `x` grows by `k`, however either wraps. */
  lemma Low8Minus(d: int, x: int, k: nat, wraps: int)
    ensures Low8(d - Low8(x + k - 0x100 * wraps) as int) == Low8(Low8(d - Low8(x) as int) as int - k)
  {
    var p, q := (x + k - 0x100 * wraps) / 0x100, x / 0x100;
    var r := (d - Low8(x) as int) / 0x100;
    assert d - Low8(x + k - 0x100 * wraps) as int == Low8(d - Low8(x) as int) as int - k + 0x100 * (r + wraps + p - q);
    Low8Shift(Low8(d - Low8(x) as int) as int - k, r + wraps + p - q);
  }
}
