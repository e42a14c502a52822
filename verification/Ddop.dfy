/** The device descriptor object pool: its binary form as the objects write it, the parser that
    reads it back, and the operations that change the pool. */
module Ddop {
  import opened Widths

  type Text = seq<u8>
  type Bytes4 = s: seq<u8> | |s| == 4 witness [0, 0, 0, 0]
  type Bytes7 = s: seq<u8> | |s| == 7 witness [0, 0, 0, 0, 0, 0, 0]
  type Bytes8 = s: seq<u8> | |s| == 8 witness [0, 0, 0, 0, 0, 0, 0, 0]
  type Children = s: seq<u16> | |s| < 0x1_0000

  const NULL_OBJECT_ID: u16 := 0xFFFF
  const MAX_TC_VERSION := 4
  const NAVIGATION_REFERENCE := 7
  const NO_NAME: Bytes8 := [0, 0, 0, 0, 0, 0, 0, 0]

  type Level = v: int | 0 <= v <= MAX_TC_VERSION

  /** Signed 32-bit values are carried as the word that holds them, scale factors and NAMEs as
      their bytes. */
  datatype Object =
    | Device(designator: Text, softwareVersion: Text, serialNumber: Text, structureLabel: Text,
             localization: Bytes7, extendedLabel: Text, isoName: Bytes8, extended: bool)
    | Element(objectId: u16, elementType: u8, designator: Text, number: u16, parent: u16, children: Children)
    | ProcessData(objectId: u16, ddi: u16, properties: u8, triggers: u8, designator: Text, presentation: u16)
    | Property(objectId: u16, ddi: u16, value: u32, designator: Text, presentation: u16)
    | Presentation(objectId: u16, offset: u32, scale: Bytes4, decimals: u8, designator: Text)
  {
    function Id(): u16 { if Device? then 0 else objectId }
  }

  type Pool = seq<Object>

  // ---- writing -----------------------------------------------------------------------

  const DVC: seq<u8> := [0x44, 0x56, 0x43]
  const DET: seq<u8> := [0x44, 0x45, 0x54]
  const DPD: seq<u8> := [0x44, 0x50, 0x44]
  const DPT: seq<u8> := [0x44, 0x50, 0x54]
  const DVP: seq<u8> := [0x44, 0x56, 0x50]

  /** A text preceded by its length, of which one byte is written. */
  function Sized(s: Text): seq<u8> { [Low8(|s|)] + s }

  /** The structure label is filled up with spaces. */
  function Padded(s: Text): (b: seq<u8>)
    ensures |b| == 7
  {
    seq(7, i requires 0 <= i < 7 => if i < |s| then s[i] else 0x20)
  }

  /** `get_binary_object` */
  function Write(o: Object): seq<u8> {
    match o
    case Device(designator, version, serial, structure, localization, extendedLabel, isoName, extended) =>
      DVC + (Word(0) + (Sized(designator) + (Sized(version) + (isoName + (Sized(serial) + (Padded(structure) + (localization
      + (if extended then Sized(extendedLabel) else []))))))))
    case Element(id, elementType, designator, number, parent, children) =>
      DET + (Word(id) + ([elementType] + (Sized(designator) + (Word(number) + (Word(parent)
      + (Word(|children|) + Words(children)))))))
    case ProcessData(id, ddi, properties, triggers, designator, presentation) =>
      DPD + (Word(id) + (Word(ddi) + ([properties] + ([triggers] + (Sized(designator) + Word(presentation))))))
    case Property(id, ddi, value, designator, presentation) =>
      DPT + (Word(id) + (Word(ddi) + (Quad(value) + (Sized(designator) + Word(presentation)))))
    case Presentation(id, offset, scale, decimals, designator) =>
      DVP + (Word(id) + (Quad(offset) + (scale + ([decimals] + Sized(designator)))))
  }

  function WritePool(pool: Pool): seq<u8> {
    if pool == [] then [] else Write(pool[0]) + WritePool(pool[1..])
  }

  // ---- reading -----------------------------------------------------------------------

  datatype Read<T> = TooShort | Got(value: T, rest: seq<u8>)

  function Take(b: seq<u8>, n: nat): (r: Read<seq<u8>>)
    ensures r.Got? ==> |r.value| == n && |r.rest| == |b| - n
  {
    if |b| < n then TooShort else Got(b[..n], b[n..])
  }

  function TakeByte(b: seq<u8>): (r: Read<u8>)
    ensures r.Got? ==> |r.rest| == |b| - 1
  {
    if b == [] then TooShort else Got(b[0], b[1..])
  }

  function TakeWord(b: seq<u8>): (r: Read<u16>)
    ensures r.Got? ==> |r.rest| == |b| - 2
  {
    if |b| < 2 then TooShort else Got(Uint16At(b, 0), b[2..])
  }

  function TakeQuad(b: seq<u8>): (r: Read<u32>)
    ensures r.Got? ==> |r.rest| == |b| - 4
  {
    if |b| < 4 then TooShort else Got(Uint32At(b, 0), b[4..])
  }

  /** A text whose length must not exceed the limit of its kind. */
  function TakeSized(b: seq<u8>, limit: nat): (r: Read<Text>)
    ensures r.Got? ==> |r.value| <= limit && |r.rest| < |b|
  {
    if b == [] || b[0] > limit then TooShort else Take(b[1..], b[0])
  }

  function TakeWords(b: seq<u8>, n: nat): (r: Read<seq<u16>>)
    ensures r.Got? ==> |r.value| == n && |r.rest| <= |b|
  {
    if n == 0 then Got([], b)
    else
      match TakeWord(b)
      case TooShort => TooShort
      case Got(first, rest) =>
        match TakeWords(rest, n - 1)
        case TooShort => TooShort
        case Got(others, last) => Got([first] + others, last)
  }

  function ReadDevice(b: seq<u8>, level: Level): (r: Read<Object>)
    ensures r.Got? ==> r.value.Device? && |r.rest| < |b|
  {
    var id := TakeWord(b);
    if id.TooShort? then TooShort else
    var designator := TakeSized(id.rest, 127);
    if designator.TooShort? then TooShort else
    var version := TakeSized(designator.rest, 127);
    if version.TooShort? then TooShort else
    var isoName := Take(version.rest, 8);
    if isoName.TooShort? then TooShort else
    var serial := TakeSized(isoName.rest, 127);
    if serial.TooShort? then TooShort else
    var structure := Take(serial.rest, 7);
    if structure.TooShort? then TooShort else
    var localization := Take(structure.rest, 7);
    if localization.TooShort? then TooShort else
    var extended := if level >= 4 then TakeSized(localization.rest, 32) else Got([], localization.rest);
    if extended.TooShort? then TooShort else
    Got(Device(designator.value, version.value, serial.value, structure.value, localization.value, extended.value,
               isoName.value, level >= 4), extended.rest)
  }

  /** Only the low byte of the number of children is used. */
  function ReadElement(b: seq<u8>): (r: Read<Object>)
    ensures r.Got? ==> r.value.Element? && |r.rest| < |b|
  {
    var id := TakeWord(b);
    if id.TooShort? then TooShort else
    var elementType := TakeByte(id.rest);
    if elementType.TooShort? || elementType.value > NAVIGATION_REFERENCE then TooShort else
    var designator := TakeSized(elementType.rest, 255);
    if designator.TooShort? then TooShort else
    var number := TakeWord(designator.rest);
    if number.TooShort? then TooShort else
    var parent := TakeWord(number.rest);
    if parent.TooShort? then TooShort else
    var count := TakeByte(parent.rest);
    if count.TooShort? then TooShort else
    var ignored := TakeByte(count.rest);
    if ignored.TooShort? then TooShort else
    var children := TakeWords(ignored.rest, count.value);
    if children.TooShort? then TooShort else
    Got(Element(id.value, elementType.value, designator.value, number.value, parent.value, children.value), children.rest)
  }

  function ReadProcessData(b: seq<u8>): (r: Read<Object>)
    ensures r.Got? ==> r.value.ProcessData? && |r.rest| < |b|
  {
    var id := TakeWord(b);
    if id.TooShort? then TooShort else
    var ddi := TakeWord(id.rest);
    if ddi.TooShort? then TooShort else
    var properties := TakeByte(ddi.rest);
    if properties.TooShort? then TooShort else
    var triggers := TakeByte(properties.rest);
    if triggers.TooShort? then TooShort else
    var designator := TakeSized(triggers.rest, 127);
    if designator.TooShort? then TooShort else
    var presentation := TakeWord(designator.rest);
    if presentation.TooShort? then TooShort else
    Got(ProcessData(id.value, ddi.value, properties.value, triggers.value, designator.value, presentation.value),
        presentation.rest)
  }

  function ReadProperty(b: seq<u8>): (r: Read<Object>)
    ensures r.Got? ==> r.value.Property? && |r.rest| < |b|
  {
    var id := TakeWord(b);
    if id.TooShort? then TooShort else
    var ddi := TakeWord(id.rest);
    if ddi.TooShort? then TooShort else
    var value := TakeQuad(ddi.rest);
    if value.TooShort? then TooShort else
    var designator := TakeSized(value.rest, 127);
    if designator.TooShort? then TooShort else
    var presentation := TakeWord(designator.rest);
    if presentation.TooShort? then TooShort else
    Got(Property(id.value, ddi.value, value.value, designator.value, presentation.value), presentation.rest)
  }

  function ReadPresentation(b: seq<u8>): (r: Read<Object>)
    ensures r.Got? ==> r.value.Presentation? && |r.rest| < |b|
  {
    var id := TakeWord(b);
    if id.TooShort? then TooShort else
    var offset := TakeQuad(id.rest);
    if offset.TooShort? then TooShort else
    var scale := Take(offset.rest, 4);
    if scale.TooShort? then TooShort else
    var decimals := TakeByte(scale.rest);
    if decimals.TooShort? then TooShort else
    var designator := TakeSized(decimals.rest, 127);
    if designator.TooShort? then TooShort else
    Got(Presentation(id.value, offset.value, scale.value, decimals.value, designator.value), designator.rest)
  }

  function ReadObject(b: seq<u8>, level: Level): (r: Read<Object>)
    ensures r.Got? ==> |r.rest| < |b|
  {
    if |b| <= 3 then TooShort
    else if b[..3] == DVC then ReadDevice(b[3..], level)
    else if b[..3] == DET then ReadElement(b[3..])
    else if b[..3] == DPD then ReadProcessData(b[3..])
    else if b[..3] == DPT then ReadProperty(b[3..])
    else if b[..3] == DVP then ReadPresentation(b[3..])
    else TooShort
  }

  // ---- changing the pool -------------------------------------------------------------

  /** The longest designator, in bytes, that `add_*` does not cut. */
  function DesignatorLimit(level: Level): nat { if level < MAX_TC_VERSION then 32 else 128 }

  function Cut(s: Text, limit: nat): Text { if |s| > limit then s[..limit] else s }

  function WithDesignator(o: Object, designator: Text): Object {
    match o
    case Device(_, version, serial, structure, localization, extendedLabel, isoName, extended) =>
      Device(designator, version, serial, structure, localization, extendedLabel, isoName, extended)
    case Element(id, elementType, _, number, parent, children) =>
      Element(id, elementType, designator, number, parent, children)
    case ProcessData(id, ddi, properties, triggers, _, presentation) =>
      ProcessData(id, ddi, properties, triggers, designator, presentation)
    case Property(id, ddi, value, _, presentation) => Property(id, ddi, value, designator, presentation)
    case Presentation(id, offset, scale, decimals, _) => Presentation(id, offset, scale, decimals, designator)
  }

  function Has(pool: Pool, id: u16): bool { exists i | 0 <= i < |pool| :: pool[i].Id() == id }

  function HasDevice(pool: Pool): bool { exists i | 0 <= i < |pool| :: pool[i].Device? }

  datatype Changed = Changed(pool: Pool, ok: bool)

  /** `add_device` and the other `add_*` functions. */
  function Add(level: Level, pool: Pool, o: Object): Changed {
    var limit := DesignatorLimit(level);
    if o.Device? then
      if HasDevice(pool) then Changed(pool, false)
      else
        Changed(pool + [o.(designator := Cut(o.designator, limit), serialNumber := Cut(o.serialNumber, limit),
                           structureLabel := Cut(o.structureLabel, 7), extendedLabel := Cut(o.extendedLabel, 32),
                           extended := level >= 4)], true)
    else if o.objectId == 0 || o.objectId == NULL_OBJECT_ID || Has(pool, o.objectId) then Changed(pool, false)
    else Changed(pool + [WithDesignator(o, Cut(o.designator, limit))], true)
  }

  /** `remove_where` */
  function Keep(pool: Pool, keep: Object -> bool): Pool {
    if pool == [] then [] else (if keep(pool[0]) then [pool[0]] else []) + Keep(pool[1..], keep)
  }

  function RemoveId(pool: Pool, id: u16): Pool { Keep(pool, (o: Object) => o.Id() != id) }

  function RemoveDevices(pool: Pool): Pool { Keep(pool, (o: Object) => !o.Device?) }

  /** The pool, the NAME a device must have, and what is left to parse. */
  datatype Parsing = Parsing(pool: Pool, client: Bytes8, rest: seq<u8>, ok: bool)

  /** One pass through the loop of `deserialize_binary_object_pool`. A device with the wrong
      NAME still replaces the one in the pool, under the right NAME. */
  function ParseOne(level: Level, pool: Pool, client: Bytes8, b: seq<u8>): (p: Parsing)
    ensures p.ok ==> |p.rest| < |b|
  {
    match ReadObject(b, level)
    case TooShort => Parsing(pool, client, b, false)
    case Got(o, rest) =>
      if o.Device? then
        var client' := if client == NO_NAME then o.isoName else client;
        var added := Add(level, RemoveDevices(pool), o.(isoName := client'));
        Parsing(added.pool, client', rest, added.ok && o.isoName == client')
      else
        var added := Add(level, RemoveId(pool, o.objectId), o);
        Parsing(added.pool, client, rest, added.ok)
  }

  function Parse(level: Level, pool: Pool, client: Bytes8, b: seq<u8>): Changed
    decreases |b|
  {
    if b == [] then Changed(pool, true)
    else
      var p := ParseOne(level, pool, client, b);
      if p.ok then Parse(level, p.pool, p.client, p.rest) else Changed(p.pool, false)
  }

  function Deserialize(level: Level, pool: Pool, client: Bytes8, b: seq<u8>): Changed {
    if b == [] then Changed(pool, false) else Parse(level, pool, client, b)
  }

  // ---- what survives -----------------------------------------------------------------

  /** The objects the parser can produce. Those that `add_*` accepts but that are not among
      them are: 128-byte designators outside elements, software versions over 127 bytes,
      structure labels shorter than 7 bytes, extended labels of a pool whose level has none,
      unknown element types, and elements with 256 children or more. */
  predicate Survives(o: Object, level: Level) {
    match o
    case Device(designator, version, serial, structure, _, extendedLabel, _, extended) =>
      && |designator| <= DesignatorLimit(level) && |designator| < 128 && |version| < 128
      && |serial| <= DesignatorLimit(level) && |serial| < 128 && |structure| == 7
      && extended == (level >= 4) && |extendedLabel| <= (if level >= 4 then 32 else 0)
    case Element(id, elementType, designator, _, _, children) =>
      && id != 0 && id != NULL_OBJECT_ID && elementType <= NAVIGATION_REFERENCE
      && |designator| <= DesignatorLimit(level) && |children| < 256
    case _ =>
      o.objectId != 0 && o.objectId != NULL_OBJECT_ID && |o.designator| <= DesignatorLimit(level) && |o.designator| < 128
  }

  predicate DistinctIds(pool: Pool) { forall i, j | 0 <= i < j < |pool| :: pool[i].Id() != pool[j].Id() }

  predicate Readable(pool: Pool, level: Level) {
    DistinctIds(pool) && forall i | 0 <= i < |pool| :: Survives(pool[i], level)
  }

  /** A device in the pool must not belong to another client. */
  predicate Belongs(pool: Pool, client: Bytes8) {
    client == NO_NAME || forall i | 0 <= i < |pool| && pool[i].Device? :: pool[i].isoName == client
  }

  lemma WordBack(x: u16, rest: seq<u8>)
    ensures TakeWord(Word(x) + rest) == Got(x, rest)
  {
    assert (Word(x) + rest)[2..] == rest;
  }

  lemma QuadBack(x: u32, rest: seq<u8>)
    ensures TakeQuad(Quad(x) + rest) == Got(x, rest)
  {
    assert (Quad(x) + rest)[4..] == rest;
    assert x == x % 0x100 + 0x100 * ((x / 0x100) % 0x100) + 0x1_0000 * ((x / 0x1_0000) % 0x100) + 0x100_0000 * ((x / 0x100_0000) % 0x100) by {
      assert x / 0x1_0000 == x / 0x100 / 0x100;
      assert x / 0x100_0000 == x / 0x100 / 0x100 / 0x100;
    }
  }

  lemma ByteBack(x: u8, rest: seq<u8>)
    ensures TakeByte([x] + rest) == Got(x, rest)
  {
    assert ([x] + rest)[1..] == rest;
  }

  lemma TakeBack(s: seq<u8>, rest: seq<u8>)
    ensures Take(s + rest, |s|) == Got(s, rest)
  {
    assert (s + rest)[..|s|] == s && (s + rest)[|s|..] == rest;
  }

  lemma SizedBack(s: Text, limit: nat, rest: seq<u8>)
    requires |s| <= limit < 0x100
    ensures TakeSized(Sized(s) + rest, limit) == Got(s, rest)
  {
    assert (Sized(s) + rest)[1..] == s + rest;
    TakeBack(s, rest);
  }

  lemma {:induction false} WordsBack(s: seq<u16>, rest: seq<u8>)
    ensures TakeWords(Words(s) + rest, |s|) == Got(s, rest)
  {
    if s != [] {
      WordsBack(s[1..], rest);
      assert Words(s) + rest == Word(s[0]) + (Words(s[1..]) + rest);
      WordBack(s[0], Words(s[1..]) + rest);
      assert [s[0]] + s[1..] == s;
    } else {
      assert Words(s) + rest == rest;
    }
  }

  lemma ElementBack(o: Object, level: Level, rest: seq<u8>)
    requires o.Element? && Survives(o, level)
    ensures ReadObject(Write(o) + rest, level) == Got(o, rest)
  {
    hide TakeWord, TakeByte, TakeSized, TakeWords, Word, Sized, Words;
    var r7 := Words(o.children) + rest;
    var count := Word(|o.children|);
    var r6 := count + r7;
    var r5 := Word(o.parent) + r6;
    var r4 := Word(o.number) + r5;
    var r3 := Sized(o.designator) + r4;
    var r2 := [o.elementType] + r3;
    var r1 := Word(o.objectId) + r2;
    HeaderBack(DET, Write(o) + rest, r1);
    WordBack(o.objectId, r2);
    ByteBack(o.elementType, r3);
    SizedBack(o.designator, 255, r4);
    WordBack(o.number, r5);
    WordBack(o.parent, r6);
    CountBack(|o.children|, r7);
    WordsBack(o.children, rest);
  }

  lemma CountBack(n: u8, rest: seq<u8>)
    ensures TakeByte(Word(n) + rest) == Got(n, [0] + rest) && TakeByte([0] + rest) == Got(0, rest)
  {
    assert (Word(n) + rest)[1..] == [0] + rest && ([0] + rest)[1..] == rest;
  }

  lemma HeaderBack(header: seq<u8>, b: seq<u8>, rest: seq<u8>)
    requires |header| == 3 && |rest| > 0 && b == header + rest
    ensures |b| > 3 && b[..3] == header && b[3..] == rest
  {
  }

  lemma ProcessDataBack(o: Object, level: Level, rest: seq<u8>)
    requires o.ProcessData? && Survives(o, level)
    ensures ReadObject(Write(o) + rest, level) == Got(o, rest)
  {
    hide TakeWord, TakeByte, TakeSized, Word, Sized;
    var r5 := Word(o.presentation) + rest;
    var r4 := Sized(o.designator) + r5;
    var r3 := [o.triggers] + r4;
    var r2 := [o.properties] + r3;
    var r1 := Word(o.ddi) + r2;
    HeaderBack(DPD, Write(o) + rest, Word(o.objectId) + r1);
    WordBack(o.objectId, r1);
    WordBack(o.ddi, r2);
    ByteBack(o.properties, r3);
    ByteBack(o.triggers, r4);
    SizedBack(o.designator, 127, r5);
    WordBack(o.presentation, rest);
  }

  lemma PropertyBack(o: Object, level: Level, rest: seq<u8>)
    requires o.Property? && Survives(o, level)
    ensures ReadObject(Write(o) + rest, level) == Got(o, rest)
  {
    hide TakeWord, TakeQuad, TakeSized, Word, Quad, Sized;
    var r4 := Word(o.presentation) + rest;
    var r3 := Sized(o.designator) + r4;
    var r2 := Quad(o.value) + r3;
    var r1 := Word(o.ddi) + r2;
    HeaderBack(DPT, Write(o) + rest, Word(o.objectId) + r1);
    WordBack(o.objectId, r1);
    WordBack(o.ddi, r2);
    QuadBack(o.value, r3);
    SizedBack(o.designator, 127, r4);
    WordBack(o.presentation, rest);
  }

  lemma PresentationBack(o: Object, level: Level, rest: seq<u8>)
    requires o.Presentation? && Survives(o, level)
    ensures ReadObject(Write(o) + rest, level) == Got(o, rest)
  {
    hide TakeWord, TakeQuad, TakeByte, Take, TakeSized, Word, Quad, Sized;
    var r4 := Sized(o.designator) + rest;
    var r3 := [o.decimals] + r4;
    var r2 := o.scale + r3;
    var r1 := Quad(o.offset) + r2;
    HeaderBack(DVP, Write(o) + rest, Word(o.objectId) + r1);
    WordBack(o.objectId, r1);
    QuadBack(o.offset, r2);
    TakeBack(o.scale, r3);
    ByteBack(o.decimals, r4);
    SizedBack(o.designator, 127, rest);
  }

  lemma DeviceBack(o: Object, level: Level, rest: seq<u8>)
    requires o.Device? && Survives(o, level)
    ensures ReadObject(Write(o) + rest, level) == Got(o, rest)
  {
    hide TakeWord, Take, TakeSized, Word, Sized;
    var r7 := (if o.extended then Sized(o.extendedLabel) else []) + rest;
    var r6 := o.localization + r7;
    var r5 := Padded(o.structureLabel) + r6;
    var r4 := Sized(o.serialNumber) + r5;
    var r3 := o.isoName + r4;
    var r2 := Sized(o.softwareVersion) + r3;
    var r1 := Sized(o.designator) + r2;
    HeaderBack(DVC, Write(o) + rest, Word(0) + r1);
    WordBack(0, r1);
    SizedBack(o.designator, 127, r2);
    SizedBack(o.softwareVersion, 127, r3);
    TakeBack(o.isoName, r4);
    SizedBack(o.serialNumber, 127, r5);
    assert Padded(o.structureLabel) == o.structureLabel;
    TakeBack(o.structureLabel, r6);
    TakeBack(o.localization, r7);
    if o.extended {
      SizedBack(o.extendedLabel, 32, rest);
    } else {
      assert r7 == rest;
    }
  }

  lemma ObjectBack(o: Object, level: Level, rest: seq<u8>)
    requires Survives(o, level)
    ensures ReadObject(Write(o) + rest, level) == Got(o, rest)
  {
    match o
    case Device(_, _, _, _, _, _, _, _) => DeviceBack(o, level, rest);
    case Element(_, _, _, _, _, _) => ElementBack(o, level, rest);
    case ProcessData(_, _, _, _, _, _) => ProcessDataBack(o, level, rest);
    case Property(_, _, _, _, _) => PropertyBack(o, level, rest);
    case Presentation(_, _, _, _, _) => PresentationBack(o, level, rest);
  }

  // ---- whole pools -------------------------------------------------------------------

  lemma {:induction false} KeepAll(pool: Pool, keep: Object -> bool)
    requires forall i | 0 <= i < |pool| :: keep(pool[i])
    ensures Keep(pool, keep) == pool
  {
    if pool != [] {
      KeepAll(pool[1..], keep);
    }
  }

  /** Removing keeps the order and the properties of what stays. */
  lemma {:induction false} KeepSome(pool: Pool, keep: Object -> bool, level: Level)
    requires Readable(pool, level)
    ensures Readable(Keep(pool, keep), level)
    ensures forall o :: o in Keep(pool, keep) <==> o in pool && keep(o)
  {
    if pool != [] {
      assert forall i | 0 <= i < |pool| - 1 :: pool[1..][i] == pool[i + 1];
      KeepSome(pool[1..], keep, level);
      var kept := Keep(pool[1..], keep);
      if keep(pool[0]) {
        forall j | 0 <= j < |kept| ensures kept[j].Id() != pool[0].Id() {
          assert kept[j] in pool[1..];
        }
      }
    }
  }

  lemma AppendReadable(pool: Pool, o: Object, level: Level)
    requires Readable(pool, level) && Survives(o, level) && !Has(pool, o.Id())
    ensures Readable(pool + [o], level)
  {
  }

  /** What was read is within the limits, but for the length of the designators. */
  lemma ReadIsBounded(b: seq<u8>, level: Level)
    ensures match ReadObject(b, level)
            case TooShort => true
            case Got(o, _) =>
              if o.Device? then
                && |o.designator| < 128 && |o.softwareVersion| < 128 && |o.serialNumber| < 128 && |o.structureLabel| == 7
                && |o.extendedLabel| <= (if level >= 4 then 32 else 0)
              else
                && (o.Element? ==> o.elementType <= NAVIGATION_REFERENCE && |o.children| < 256)
                && (!o.Element? ==> |o.designator| < 128)
  {
    hide TakeWord, TakeByte, TakeQuad, Take, TakeSized, TakeWords;
  }

  /** Whatever bytes are parsed, the identifiers stay distinct, at most the device has number
      0, and every object is one that could be written and read again. */
  lemma ParseOneKeeps(level: Level, pool: Pool, client: Bytes8, b: seq<u8>)
    requires Readable(pool, level)
    ensures Readable(ParseOne(level, pool, client, b).pool, level)
  {
    hide ReadObject, Readable, Keep;
    ReadIsBounded(b, level);
    if ReadObject(b, level).Got? {
      var o := ReadObject(b, level).value;
      AddParsedKeeps(level, pool, o, client);
    }
  }

  lemma RemovedIsReadable(level: Level, pool: Pool, id: u16)
    requires Readable(pool, level)
    ensures Readable(RemoveDevices(pool), level) && !HasDevice(RemoveDevices(pool)) && !Has(RemoveDevices(pool), 0)
    ensures Readable(RemoveId(pool, id), level) && !Has(RemoveId(pool, id), id)
  {
    KeepSome(pool, (o: Object) => !o.Device?, level);
    KeepSome(pool, (o: Object) => o.Id() != id, level);
    assert forall o | o in RemoveDevices(pool) :: o in pool && !o.Device?;
    assert forall o | o in RemoveId(pool, id) :: o.Id() != id;
  }

  lemma AddParsedKeeps(level: Level, pool: Pool, o: Object, client: Bytes8)
    requires Readable(pool, level)
    requires if o.Device? then
               && |o.designator| < 128 && |o.softwareVersion| < 128 && |o.serialNumber| < 128 && |o.structureLabel| == 7
               && |o.extendedLabel| <= (if level >= 4 then 32 else 0)
             else
               && (o.Element? ==> o.elementType <= NAVIGATION_REFERENCE && |o.children| < 256)
               && (!o.Element? ==> |o.designator| < 128)
    ensures o.Device? ==> Readable(Add(level, RemoveDevices(pool), o.(isoName := client)).pool, level)
    ensures o.Device? ==> Readable(Add(level, RemoveDevices(pool), o).pool, level)
    ensures !o.Device? ==> Readable(Add(level, RemoveId(pool, o.objectId), o).pool, level)
  {
    hide Readable, RemoveDevices, RemoveId, HasDevice, Has;
    RemovedIsReadable(level, pool, o.Id());
    if o.Device? {
      var c := Add(level, RemoveDevices(pool), o.(isoName := client));
      AppendReadable(RemoveDevices(pool), c.pool[|c.pool| - 1], level);
      var d := Add(level, RemoveDevices(pool), o);
      AppendReadable(RemoveDevices(pool), d.pool[|d.pool| - 1], level);
    } else {
      var c := Add(level, RemoveId(pool, o.objectId), o);
      if c.ok {
        AppendReadable(RemoveId(pool, o.objectId), c.pool[|c.pool| - 1], level);
      }
    }
  }

  lemma {:induction false} ParseKeeps(level: Level, pool: Pool, client: Bytes8, b: seq<u8>)
    requires Readable(pool, level)
    ensures Readable(Parse(level, pool, client, b).pool, level)
    decreases |b|
  {
    hide Readable;
    if b != [] {
      var p := ParseOne(level, pool, client, b);
      ParseOneKeeps(level, pool, client, b);
      if p.ok {
        ParseKeeps(level, p.pool, p.client, p.rest);
      }
    }
  }

  /** Reading one written object appends it. */
  lemma ParseWritten(level: Level, pool: Pool, client: Bytes8, o: Object, rest: seq<u8>)
    requires Readable(pool + [o], level)
    ensures var p := ParseOne(level, pool, client, Write(o) + rest);
            && p.pool == pool + [if o.Device? then o.(isoName := p.client) else o] && p.rest == rest
            && p.client == (if o.Device? && client == NO_NAME then o.isoName else client)
            && (p.ok <==> o.Device? ==> o.isoName == p.client)
  {
    hide Write, ReadObject, Readable;
    LastOfReadable(pool, o, level);
    ObjectBack(o, level, rest);
    if o.Device? {
      KeepAll(pool, (x: Object) => !x.Device?);
      AddDeviceAsIs(level, pool, o, ParseOne(level, pool, client, Write(o) + rest).client);
    } else {
      KeepAll(pool, (x: Object) => x.Id() != o.objectId);
      AddAsIs(level, pool, o);
    }
  }

  lemma LastOfReadable(pool: Pool, o: Object, level: Level)
    requires Readable(pool + [o], level)
    ensures Survives(o, level) && !Has(pool, o.Id()) && (o.Device? ==> !HasDevice(pool))
  {
    assert (pool + [o])[|pool|] == o;
    assert forall i | 0 <= i < |pool| :: (pool + [o])[i] == pool[i];
  }

  lemma AddDeviceAsIs(level: Level, pool: Pool, o: Object, isoName: Bytes8)
    requires o.Device? && Survives(o, level) && !HasDevice(pool)
    ensures Add(level, pool, o.(isoName := isoName)) == Changed(pool + [o.(isoName := isoName)], true)
  {
  }

  lemma AddAsIs(level: Level, pool: Pool, o: Object)
    requires !o.Device? && Survives(o, level) && !Has(pool, o.Id())
    ensures Add(level, pool, o) == Changed(pool + [o], true)
  {
  }

  lemma ReadableParts(done: Pool, pool: Pool, level: Level)
    requires Readable(done + pool, level) && pool != []
    ensures Readable(done + [pool[0]], level) && Survives(pool[0], level)
    ensures done + [pool[0]] + pool[1..] == done + pool
    ensures forall i | 0 < i < |pool| :: pool[i].Id() != pool[0].Id()
  {
    var all := done + pool;
    assert forall i | 0 <= i < |done| :: (done + [pool[0]])[i] == all[i];
    assert (done + [pool[0]])[|done|] == all[|done|];
    forall i | 0 < i < |pool| ensures pool[i].Id() != pool[0].Id() {
      assert all[|done| + i] == pool[i] && all[|done|] == pool[0];
    }
  }

  lemma {:induction false} ParsePool(level: Level, done: Pool, pool: Pool, client: Bytes8)
    requires Readable(done + pool, level)
    ensures var c := Parse(level, done, client, WritePool(pool));
            if Belongs(pool, client) then c == Changed(done + pool, true) else !c.ok
    decreases |pool|
  {
    hide Readable, ParseOne, Write, Survives;
    if pool == [] {
      assert done + pool == done;
    } else {
      ReadableParts(done, pool, level);
      var o := pool[0];
      var rest := WritePool(pool[1..]);
      ParseWritten(level, done, client, o, rest);
      WriteIsSomething(o);
      var p := ParseOne(level, done, client, WritePool(pool));
      assert forall i | 0 <= i < |pool| - 1 :: pool[1..][i] == pool[i + 1];
      if p.ok {
        assert p.pool == done + [o];
        ParsePool(level, done + [o], pool[1..], p.client);
        OneDevice(pool, client, p.client);
      }
    }
  }

  lemma WriteIsSomething(o: Object)
    ensures |Write(o)| > 3
  {
  }

  lemma OneDevice(pool: Pool, client: Bytes8, client': Bytes8)
    requires pool != [] && forall i | 0 < i < |pool| :: pool[i].Id() != pool[0].Id()
    requires if pool[0].Device? then pool[0].isoName == client' && (client == NO_NAME || client == client') else client == client'
    ensures Belongs(pool, client) <==> Belongs(pool[1..], client')
  {
    assert forall i | 0 <= i < |pool| - 1 :: pool[1..][i] == pool[i + 1];
    if pool[0].Device? {
      assert forall i | 0 < i < |pool| :: !pool[i].Device?;
    } else if Belongs(pool[1..], client') && client != NO_NAME {
      forall i | 0 <= i < |pool| && pool[i].Device? ensures pool[i].isoName == client {
        assert pool[1..][i - 1] == pool[i];
      }
    }
  }

  /** Writing a pool and reading it back gives the same objects in the same order exactly when
      the pool is not empty, its identifiers are distinct, every object is within the limits
      of the parser, and its device belongs to the client. */
  lemma {:induction false} RoundTripIff(level: Level, pool: Pool, client: Bytes8)
    ensures Deserialize(level, [], client, WritePool(pool)) == Changed(pool, true)
            <==> pool != [] && Readable(pool, level) && Belongs(pool, client)
  {
    hide Readable, Belongs, Parse, Write;
    assert Readable([], level) by { NothingIsReadable(level); }
    ParseKeeps(level, [], client, WritePool(pool));
    if pool != [] {
      WriteIsSomething(pool[0]);
    }
    if Readable(pool, level) {
      assert [] + pool == pool;
      ParsePool(level, [], pool, client);
    }
  }

  lemma NothingIsReadable(level: Level)
    ensures Readable([], level)
  {
  }

  /** Two pools within the limits that are written alike are alike. */
  lemma {:induction false} WritePoolInjective(level: Level, a: Pool, b: Pool)
    requires Readable(a, level) && Readable(b, level) && WritePool(a) == WritePool(b)
    ensures a == b
  {
    if a == [] || b == [] {
      if a != [] { WriteIsSomething(a[0]); }
      if b != [] { WriteIsSomething(b[0]); }
    } else {
      RoundTripIff(level, a, NO_NAME);
      RoundTripIff(level, b, NO_NAME);
    }
  }

  /** 127 bytes of designator are the most a process data object can keep. */
  lemma LongDesignatorIsLost(id: u16, s: Text)
    requires |s| == 128 && id != 0 && id != NULL_OBJECT_ID
    ensures var o := ProcessData(id, 0, 0, 0, s, NULL_OBJECT_ID);
            && Add(4, [], o) == Changed([o], true)
            && Deserialize(4, [], NO_NAME, WritePool([o])) != Changed([o], true)
  {
    var o := ProcessData(id, 0, 0, 0, s, NULL_OBJECT_ID);
    assert [] + [o] == [o];
    RoundTripIff(4, [o], NO_NAME);
    assert !Survives([o][0], 4);
  }

  // ---- references --------------------------------------------------------------------

  /** `get_object_by_id`: the place of the first object with the identifier. */
  function Find(pool: Pool, id: u16, from: nat): (i: nat)
    requires from <= |pool|
    ensures from <= i <= |pool|
    ensures forall j | from <= j < i :: pool[j].Id() != id
    ensures i < |pool| ==> pool[i].Id() == id
    decreases |pool| - from
  {
    if from == |pool| || pool[from].Id() == id then from else Find(pool, id, from + 1)
  }

  function At(pool: Pool, id: u16): Pool {
    var i := Find(pool, id, 0);
    if i < |pool| then [pool[i]] else []
  }

  predicate ParentOk(pool: Pool, id: u16) {
    id != NULL_OBJECT_ID && At(pool, id) != [] && (At(pool, id)[0].Element? || At(pool, id)[0].Device?)
  }

  predicate ChildOk(pool: Pool, id: u16) {
    At(pool, id) != [] && (At(pool, id)[0].ProcessData? || At(pool, id)[0].Property?)
  }

  predicate PresentationOk(pool: Pool, id: u16) {
    id != NULL_OBJECT_ID ==> At(pool, id) != [] && At(pool, id)[0].Presentation?
  }

  /** The references of one object. */
  predicate Resolved(pool: Pool, o: Object) {
    match o
    case Element(_, _, _, _, parent, children) =>
      ParentOk(pool, parent) && forall i | 0 <= i < |children| :: ChildOk(pool, children[i])
    case ProcessData(_, _, _, _, _, presentation) => PresentationOk(pool, presentation)
    case Property(_, _, _, _, presentation) => PresentationOk(pool, presentation)
    case _ => true
  }

  predicate AllResolved(pool: Pool) { forall i | 0 <= i < |pool| :: Resolved(pool, pool[i]) }

  /** With distinct identifiers the first object found is the only one there is. */
  lemma FoundIsTheOne(pool: Pool, o: Object)
    requires DistinctIds(pool)
    ensures At(pool, o.Id()) == [o] <==> o in pool
  {
    if o in pool {
      var i :| 0 <= i < |pool| && pool[i] == o;
      assert Find(pool, o.Id(), 0) == i;
    }
  }
}
