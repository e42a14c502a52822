/** How the parser of the binary pool finds its fields: it computes the length of a record from
    the length bytes inside it, falls back to zero where one is missing or too large, and reads
    the fields at fixed distances from each other. It refuses or reads exactly what reading
    field after field does, and it looks at one byte that may not be there. */
module DdopRecords {
  import opened Widths
  import opened Ddop

  function Max(a: int, b: int): int { if a >= b then a else b }

  /** A length byte: its value or 0, whether it may be used, and where looking at it ended. */
  datatype Length = Length(value: nat, ok: bool, extent: nat)

  function LengthAt(b: seq<u8>, i: nat, limit: u8): Length {
    if i >= |b| then Length(0, false, 0)
    else if b[i] <= limit then Length(b[i], true, i + 1)
    else Length(0, false, i + 1)
  }

  /** The lengths inside a record, its whole size, whether all of them and the element type may
      be used, and the end of the bytes looked at so far. */
  datatype Scan = Scan(lengths: seq<nat>, size: nat, ok: bool, extent: nat)

  function ScanDevice(b: seq<u8>, level: Level): (s: Scan)
    ensures |s.lengths| == 4 && s.size >= 30
  {
    var n := LengthAt(b, 5, 127);
    var m := LengthAt(b, 6 + n.value, 127);
    var o := LengthAt(b, 15 + n.value + m.value, 127);
    var x := if level >= 4 then LengthAt(b, 30 + n.value + m.value + o.value, 32) else Length(0, true, 0);
    Scan([n.value, m.value, o.value, x.value],
         (if level >= 4 then 31 else 30) + n.value + m.value + o.value + x.value,
         n.ok && m.ok && o.ok && x.ok, Max(Max(n.extent, m.extent), Max(o.extent, x.extent)))
  }

  /** The element type at index 5 is looked at without asking whether it is there. */
  function ScanElement(b: seq<u8>): (s: Scan)
    ensures |s.lengths| == 2 && s.size >= 13
  {
    var n := LengthAt(b, 6, 255);
    var c := LengthAt(b, 11 + n.value, 255);
    Scan([n.value, c.value], 13 + 2 * c.value + n.value,
         n.ok && c.ok && (5 < |b| && b[5] <= NAVIGATION_REFERENCE), Max(6, Max(n.extent, c.extent)))
  }

  function ScanSized(b: seq<u8>, i: nat, size: nat): (s: Scan)
    ensures |s.lengths| == 1 && s.size >= size
  {
    var n := LengthAt(b, i, 127);
    Scan([n.value], size + n.value, n.ok, n.extent)
  }

  function ScanRecord(b: seq<u8>, level: Level): Scan
    requires |b| > 3
  {
    if b[..3] == DVC then ScanDevice(b, level)
    else if b[..3] == DET then ScanElement(b)
    else if b[..3] == DPD then ScanSized(b, 9, 12)
    else if b[..3] == DPT then ScanSized(b, 11, 14)
    else if b[..3] == DVP then ScanSized(b, 14, 15)
    else Scan([], 0, false, 3)
  }

  predicate Whole(b: seq<u8>, s: Scan) { s.ok && |b| >= s.size }

  /** The end of the bytes that one pass of the parser looks at. */
  function Extent(b: seq<u8>, level: Level): nat {
    if |b| <= 3 then 0
    else
      var s := ScanRecord(b, level);
      Max(3, Max(s.extent, if Whole(b, s) then s.size else 0))
  }

  /** The one record in which the parser looks past the end: a device element that stops
      before its type. */
  lemma ReadsInBoundsIff(b: seq<u8>, level: Level)
    ensures Extent(b, level) <= |b| <==> !(3 < |b| < 6 && b[..3] == DET)
  {
  }

  // ---- the fields of a record --------------------------------------------------------

  /** The fields of a device, given the four lengths. */
  function DeviceWith(b: seq<u8>, level: Level, n: nat, m: nat, o: nat, size: nat): Object
    requires 30 + n + m + o <= size <= |b| && (level >= 4 ==> 31 + n + m + o <= size)
  {
    Device(b[6..6 + n], b[7 + n..7 + n + m], b[16 + n + m..16 + n + m + o],
           b[16 + n + m + o..23 + n + m + o], b[23 + n + m + o..30 + n + m + o],
           if level >= 4 then b[31 + n + m + o..size] else [],
           b[7 + n + m..15 + n + m], level >= 4)
  }

  function DeviceAt(b: seq<u8>, level: Level): Object
    requires Whole(b, ScanDevice(b, level))
  {
    var s := ScanDevice(b, level);
    var n, m, o := s.lengths[0], s.lengths[1], s.lengths[2];
    DeviceWith(b, level, n, m, o, s.size)
  }

  function WordsAt(b: seq<u8>, i: nat, n: nat): seq<u16>
    requires i + 2 * n <= |b|
  {
    seq(n, k requires 0 <= k < n => Uint16At(b, i + 2 * k))
  }

  function ElementAt(b: seq<u8>): Object
    requires Whole(b, ScanElement(b))
  {
    var n, c := ScanElement(b).lengths[0], ScanElement(b).lengths[1];
    Element(Uint16At(b, 3), b[5], b[7..7 + n], Uint16At(b, 7 + n), Uint16At(b, 9 + n), WordsAt(b, 13 + n, c))
  }

  function ObjectAt(b: seq<u8>, level: Level): Object
    requires |b| > 3 && Whole(b, ScanRecord(b, level))
  {
    if b[..3] == DVC then DeviceAt(b, level)
    else if b[..3] == DET then ElementAt(b)
    else
      var n := ScanRecord(b, level).lengths[0];
      if b[..3] == DPD then ProcessData(Uint16At(b, 3), Uint16At(b, 5), b[7], b[8], b[10..10 + n], Uint16At(b, 10 + n))
      else if b[..3] == DPT then Property(Uint16At(b, 3), Uint16At(b, 5), Uint32At(b, 7), b[12..12 + n], Uint16At(b, 12 + n))
      else Presentation(Uint16At(b, 3), Uint32At(b, 5), b[9..13], b[13], b[15..15 + n])
  }

  lemma TakeAt(b: seq<u8>, i: nat, n: nat)
    requires i <= |b|
    ensures Take(b[i..], n) == if i + n <= |b| then Got(b[i..i + n], b[i + n..]) else TooShort
  {
    if i + n <= |b| {
      assert b[i..][..n] == b[i..i + n] && b[i..][n..] == b[i + n..];
    }
  }

  lemma TakeByteAt(b: seq<u8>, i: nat)
    requires i <= |b|
    ensures TakeByte(b[i..]) == if i < |b| then Got(b[i], b[i + 1..]) else TooShort
  {
  }

  lemma TakeWordAt(b: seq<u8>, i: nat)
    requires i <= |b|
    ensures TakeWord(b[i..]) == if i + 2 <= |b| then Got(Uint16At(b, i), b[i + 2..]) else TooShort
  {
  }

  lemma TakeQuadAt(b: seq<u8>, i: nat)
    requires i <= |b|
    ensures TakeQuad(b[i..]) == if i + 4 <= |b| then Got(Uint32At(b, i), b[i + 4..]) else TooShort
  {
  }

  lemma TakeSizedAt(b: seq<u8>, i: nat, limit: u8)
    requires i <= |b|
    ensures var n := LengthAt(b, i, limit);
            TakeSized(b[i..], limit) == if n.ok && i + 1 + n.value <= |b| then Got(b[i + 1..i + 1 + n.value], b[i + 1 + n.value..])
                                        else TooShort
  {
    if i < |b| {
      assert b[i..][1..] == b[i + 1..];
      TakeAt(b, i + 1, b[i]);
    }
  }

  lemma {:induction false} TakeWordsAt(b: seq<u8>, i: nat, n: nat)
    requires i <= |b|
    ensures TakeWords(b[i..], n) == if i + 2 * n <= |b| then Got(WordsAt(b, i, n), b[i + 2 * n..]) else TooShort
    decreases n
  {
    if n == 0 {
      assert WordsAt(b, i, n) == [];
    } else {
      TakeWordAt(b, i);
      if i + 2 <= |b| {
        TakeWordsAt(b, i + 2, n - 1);
      }
      if i + 2 * n <= |b| {
        assert WordsAt(b, i, n) == [Uint16At(b, i)] + WordsAt(b, i + 2, n - 1);
        assert b[i + 2 * n..] == b[i + 2 + 2 * (n - 1)..];
      }
    }
  }

  lemma ElementIsRead(b: seq<u8>)
    requires Whole(b, ScanElement(b))
    ensures ReadElement(b[3..]) == Got(ElementAt(b), b[ScanElement(b).size..])
  {
    hide Take, TakeByte, TakeWord, TakeSized, TakeWords, WordsAt, Uint16At;
    var n := LengthAt(b, 6, 255).value;
    TakeWordAt(b, 3);
    TakeByteAt(b, 5);
    TakeSizedAt(b, 6, 255);
    TakeWordAt(b, 7 + n);
    TakeWordAt(b, 9 + n);
    TakeByteAt(b, 11 + n);
    TakeByteAt(b, 12 + n);
    TakeWordsAt(b, 13 + n, LengthAt(b, 11 + n, 255).value);
  }

  lemma ElementIsWhole(b: seq<u8>)
    requires |b| > 3 && ReadElement(b[3..]).Got?
    ensures Whole(b, ScanElement(b))
  {
    hide Take, TakeByte, TakeWord, TakeSized, TakeWords, WordsAt;
    TakeWordAt(b, 3);
    TakeByteAt(b, 5);
    TakeSizedAt(b, 6, 255);
    var n := LengthAt(b, 6, 255).value;
    TakeWordAt(b, 7 + n);
    TakeWordAt(b, 9 + n);
    TakeByteAt(b, 11 + n);
    TakeByteAt(b, 12 + n);
    TakeWordsAt(b, 13 + n, LengthAt(b, 11 + n, 255).value);
  }

  lemma FieldsAreRead(b: seq<u8>, level: Level, n: nat, m: nat, o: nat, size: nat)
    requires 30 + n + m + o <= size <= |b| && (if level >= 4 then 31 + n + m + o <= size else size == 30 + n + m + o)
    requires TakeSized(b[5..], 127) == Got(b[6..6 + n], b[6 + n..])
    requires TakeSized(b[6 + n..], 127) == Got(b[7 + n..7 + n + m], b[7 + n + m..])
    requires TakeSized(b[15 + n + m..], 127) == Got(b[16 + n + m..16 + n + m + o], b[16 + n + m + o..])
    requires level >= 4 ==> TakeSized(b[30 + n + m + o..], 32) == Got(b[31 + n + m + o..size], b[size..])
    ensures ReadDevice(b[3..], level) == Got(DeviceWith(b, level, n, m, o, size), b[size..])
  {
    hide Take, TakeWord, TakeSized, Uint16At;
    TakeWordAt(b, 3);
    TakeAt(b, 7 + n + m, 8);
    TakeAt(b, 16 + n + m + o, 7);
    TakeAt(b, 23 + n + m + o, 7);
  }

  lemma DeviceIsRead(b: seq<u8>, level: Level)
    requires Whole(b, ScanDevice(b, level))
    ensures ReadDevice(b[3..], level) == Got(DeviceAt(b, level), b[ScanDevice(b, level).size..])
  {
    hide Take, TakeWord, TakeSized, LengthAt, ReadDevice, DeviceWith;
    var s := ScanDevice(b, level);
    var n, m, o := s.lengths[0], s.lengths[1], s.lengths[2];
    TakeSizedAt(b, 5, 127);
    TakeSizedAt(b, 6 + n, 127);
    TakeSizedAt(b, 15 + n + m, 127);
    TakeSizedAt(b, 30 + n + m + o, 32);
    FieldsAreRead(b, level, n, m, o, s.size);
  }

  lemma DeviceIsWhole(b: seq<u8>, level: Level)
    requires |b| > 3 && ReadDevice(b[3..], level).Got?
    ensures Whole(b, ScanDevice(b, level))
  {
    hide Take, TakeWord, TakeSized, LengthAt;
    TakeWordAt(b, 3);
    TakeSizedAt(b, 5, 127);
    var n := LengthAt(b, 5, 127).value;
    TakeSizedAt(b, 6 + n, 127);
    var m := LengthAt(b, 6 + n, 127).value;
    TakeAt(b, 7 + n + m, 8);
    TakeSizedAt(b, 15 + n + m, 127);
    var o := LengthAt(b, 15 + n + m, 127).value;
    TakeAt(b, 16 + n + m + o, 7);
    TakeAt(b, 23 + n + m + o, 7);
    TakeSizedAt(b, 30 + n + m + o, 32);
  }

  lemma ProcessDataAgrees(b: seq<u8>)
    requires |b| > 3 && b[..3] == DPD
    ensures var s := ScanSized(b, 9, 12);
            ReadProcessData(b[3..]) == if Whole(b, s) then Got(ObjectAt(b, 0), b[s.size..]) else TooShort
  {
    hide TakeByte, TakeWord, TakeSized;
    TakeWordAt(b, 3);
    if |b| >= 9 {
      TakeWordAt(b, 5);
      TakeByteAt(b, 7);
      TakeByteAt(b, 8);
      TakeSizedAt(b, 9, 127);
      var n := LengthAt(b, 9, 127);
      if n.ok && 10 + n.value <= |b| {
        TakeWordAt(b, 10 + n.value);
      }
    } else if |b| >= 5 {
      TakeWordAt(b, 5);
      if |b| >= 7 {
        TakeByteAt(b, 7);
        if |b| >= 8 {
          TakeByteAt(b, 8);
        }
      }
    }
  }

  lemma PropertyAgrees(b: seq<u8>)
    requires |b| > 3 && b[..3] == DPT
    ensures var s := ScanSized(b, 11, 14);
            ReadProperty(b[3..]) == if Whole(b, s) then Got(ObjectAt(b, 0), b[s.size..]) else TooShort
  {
    hide TakeQuad, TakeWord, TakeSized;
    TakeWordAt(b, 3);
    if |b| >= 5 {
      TakeWordAt(b, 5);
      if |b| >= 7 {
        TakeQuadAt(b, 7);
        if |b| >= 11 {
          TakeSizedAt(b, 11, 127);
          var n := LengthAt(b, 11, 127);
          if n.ok && 12 + n.value <= |b| {
            TakeWordAt(b, 12 + n.value);
          }
        }
      }
    }
  }

  lemma PresentationAgrees(b: seq<u8>)
    requires |b| > 3 && b[..3] == DVP
    ensures var s := ScanSized(b, 14, 15);
            ReadPresentation(b[3..]) == if Whole(b, s) then Got(ObjectAt(b, 0), b[s.size..]) else TooShort
  {
    hide Take, TakeByte, TakeQuad, TakeWord, TakeSized;
    TakeWordAt(b, 3);
    if |b| >= 5 {
      TakeQuadAt(b, 5);
      if |b| >= 9 {
        TakeAt(b, 9, 4);
        if |b| >= 13 {
          TakeByteAt(b, 13);
          if |b| >= 14 {
            TakeSizedAt(b, 14, 127);
          }
        }
      }
    }
  }

  /** Looking at computed places, as the code does, is reading field after field: the same
      records are refused, the same objects come out and as many bytes are consumed. */
  lemma PlacesAgree(b: seq<u8>, level: Level)
    requires |b| > 3
    ensures var s := ScanRecord(b, level);
            ReadObject(b, level) == if Whole(b, s) then Got(ObjectAt(b, level), b[s.size..]) else TooShort
  {
    hide ReadDevice, ReadElement, ReadProcessData, ReadProperty, ReadPresentation, ScanDevice, ScanElement, ScanSized, DeviceAt, ElementAt;
    if b[..3] == DVC {
      if ReadDevice(b[3..], level).Got? {
        DeviceIsWhole(b, level);
      }
      if Whole(b, ScanDevice(b, level)) {
        DeviceIsRead(b, level);
      }
    } else if b[..3] == DET {
      if ReadElement(b[3..]).Got? {
        ElementIsWhole(b);
      }
      if Whole(b, ScanElement(b)) {
        ElementIsRead(b);
      }
    } else if b[..3] == DPD {
      ProcessDataAgrees(b);
    } else if b[..3] == DPT {
      PropertyAgrees(b);
    } else if b[..3] == DVP {
      PresentationAgrees(b);
    }
  }

  /** Whether every pass over these bytes stays inside them. */
  predicate InBounds(level: Level, pool: Pool, client: Bytes8, b: seq<u8>)
    decreases |b|
  {
    b == [] || (Extent(b, level) <= |b|
                && var p := ParseOne(level, pool, client, b); p.ok ==> InBounds(level, p.pool, p.client, p.rest))
  }

  /** Bytes that are accepted as a pool were only read inside. */
  lemma {:induction false} AcceptedInBounds(level: Level, pool: Pool, client: Bytes8, b: seq<u8>)
    requires Parse(level, pool, client, b).ok
    ensures InBounds(level, pool, client, b)
    decreases |b|
  {
    hide ReadObject, Extent, Add, RemoveId, RemoveDevices;
    if b != [] {
      var p := ParseOne(level, pool, client, b);
      ShortElementIsRefused(b, level);
      AcceptedInBounds(level, p.pool, p.client, p.rest);
    }
  }

  lemma ShortElementIsRefused(b: seq<u8>, level: Level)
    ensures ReadObject(b, level).Got? ==> Extent(b, level) <= |b|
  {
    hide Extent;
    ReadsInBoundsIff(b, level);
    if |b| > 3 {
      PlacesAgree(b, level);
    }
  }
}
