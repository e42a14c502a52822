/** The object pool generator: what it emits for a list of objects, and the validator that runs
    over the emitted bytes with a cursor. */
module IopPool {
  import opened Widths

  type Bytes4 = s: seq<u8> | |s| == 4 witness [0, 0, 0, 0]

  /** A reference with its place, two signed words carried as unsigned ones. */
  datatype Child = Child(reference: u16, x: u16, y: u16)

  datatype Object =
    | WorkingSet(id: u16, colour: u8, selectable: u8, activeMask: u16, children: seq<Child>)
    | DataMask(id: u16, colour: u8, softKeyMask: u16, children: seq<Child>)
    | SoftKeyMask(id: u16, colour: u8, keys: seq<u16>)
    | Key(id: u16, colour: u8, code: u8, children: seq<Child>)
    | Button(id: u16, width: u16, height: u16, colour: u8, border: u8, code: u8, options: u8, children: seq<Child>)
    | OutputString(id: u16, width: u16, height: u16, colour: u8, font: u16, options: u8, justification: u8, value: seq<u8>)
    | OutputNumber(id: u16, width: u16, height: u16, colour: u8, font: u16, options: u8, value32: u32, offset: u32,
                   scale: Bytes4, decimals: u8, format: u8, justification: u8)
    | FontAttributes(id: u16, colour: u8, size: u8, kind: u8, style: u8)

  const WORKING_SET: u8 := 0
  const DATA_MASK: u8 := 1
  const SOFT_KEY_MASK: u8 := 4
  const KEY: u8 := 5
  const BUTTON: u8 := 6
  const OUTPUT_STRING: u8 := 11
  const OUTPUT_NUMBER: u8 := 12
  const FONT_ATTRIBUTES: u8 := 23

  function TypeOf(o: Object): u8 {
    match o
    case WorkingSet(_, _, _, _, _) => WORKING_SET
    case DataMask(_, _, _, _) => DATA_MASK
    case SoftKeyMask(_, _, _) => SOFT_KEY_MASK
    case Key(_, _, _, _) => KEY
    case Button(_, _, _, _, _, _, _, _) => BUTTON
    case OutputString(_, _, _, _, _, _, _, _) => OUTPUT_STRING
    case OutputNumber(_, _, _, _, _, _, _, _, _, _, _, _) => OUTPUT_NUMBER
    case FontAttributes(_, _, _, _, _) => FONT_ATTRIBUTES
  }

  // ---- emitting ----------------------------------------------------------------------

  function Places(children: seq<Child>): (b: seq<u8>)
    ensures |b| == 6 * |children|
  {
    if children == [] then []
    else Word(children[0].reference) + Word(children[0].x) + Word(children[0].y) + Places(children[1..])
  }

  /** The fixed part of an object; the count of what follows is written modulo its width. */
  function Header(o: Object): seq<u8> {
    Word(o.id) + [TypeOf(o)] +
    match o
    case WorkingSet(_, colour, selectable, activeMask, children) =>
      [colour, selectable] + Word(activeMask) + [Low8(|children|), 0, 0]
    case DataMask(_, colour, softKeyMask, children) => [colour] + Word(softKeyMask) + [Low8(|children|), 0]
    case SoftKeyMask(_, colour, keys) => [colour, Low8(|keys|), 0]
    case Key(_, colour, code, children) => [colour, code, Low8(|children|), 0]
    case Button(_, width, height, colour, border, code, options, children) =>
      Word(width) + Word(height) + [colour, border, code, options, Low8(|children|), 0]
    case OutputString(_, width, height, colour, font, options, justification, value) =>
      Word(width) + Word(height) + [colour] + Word(font) + [options] + Word(0xFFFF) + [justification]
      + Word(Low16(|value|))
    case OutputNumber(_, width, height, colour, font, options, value32, offset, scale, decimals, format, justification) =>
      Word(width) + Word(height) + [colour] + Word(font) + [options] + Word(0xFFFF) + Quad(value32) + Quad(offset)
      + scale + [decimals, format, justification, 0]
    case FontAttributes(_, colour, size, kind, style) => [colour, size, kind, style, 0]
  }

  function Tail(o: Object): seq<u8> {
    match o
    case WorkingSet(_, _, _, _, children) => Places(children)
    case DataMask(_, _, _, children) => Places(children)
    case SoftKeyMask(_, _, keys) => Words(keys)
    case Key(_, _, _, children) => Places(children)
    case Button(_, _, _, _, _, _, _, children) => Places(children)
    case OutputString(_, _, _, _, _, _, _, value) => value + [0]
    case _ => []
  }

  /** `encode_*` */
  function Encode(o: Object): seq<u8> { Header(o) + Tail(o) }

  function Emit(objects: seq<Object>): seq<u8> {
    if objects == [] then [] else Encode(objects[0]) + Emit(objects[1..])
  }

  const ORDER: seq<u8> := [WORKING_SET, FONT_ATTRIBUTES, SOFT_KEY_MASK, KEY, BUTTON, OUTPUT_STRING, OUTPUT_NUMBER, DATA_MASK]

  function OfType(objects: seq<Object>, t: u8): seq<Object> {
    if objects == [] then [] else (if TypeOf(objects[0]) == t then [objects[0]] else []) + OfType(objects[1..], t)
  }

  /** The objects in the order in which `generate` emits them. */
  function Arranged(objects: seq<Object>, order: seq<u8>): seq<Object> {
    if order == [] then [] else OfType(objects, order[0]) + Arranged(objects, order[1..])
  }

  // ---- validating --------------------------------------------------------------------

  datatype Cursor = At(index: nat) | Failed

  /** Where the next object begins, as far as the header at `index` tells. */
  function Advance(data: seq<u8>, index: nat): Cursor
    requires index <= |data|
  {
    var left := |data| - index;
    if left < 3 then Failed
    else
      var t := data[index + 2];
      if t == WORKING_SET then if left < 10 then Failed else At(index + 10 + data[index + 7] as int * 6)
      else if t == DATA_MASK then if left < 8 then Failed else At(index + 8 + data[index + 6] as int * 6)
      else if t == SOFT_KEY_MASK then if left < 6 then Failed else At(index + 6 + data[index + 4] as int * 2)
      else if t == KEY then if left < 7 then Failed else At(index + 7 + data[index + 5] as int * 6)
      else if t == BUTTON then if left < 13 then Failed else At(index + 13 + data[index + 11] as int * 6)
      else if t == OUTPUT_STRING then if left < 16 then Failed else At(index + 17 + Uint16At(data, index + 14) as int)
      else if t == OUTPUT_NUMBER then if left < 29 then Failed else At(index + 29)
      else if t == FONT_ATTRIBUTES then if left < 8 then Failed else At(index + 8)
      else Failed
  }

  /** The places where the cursor stops, or nothing when the validator raises an error. */
  datatype Verdict = Stops(stops: seq<nat>) | Error

  function Walk(data: seq<u8>, index: nat): Verdict
    requires index <= |data|
    decreases |data| - index
  {
    if index == |data| then Stops([])
    else
      match Advance(data, index)
      case Failed => Error
      case At(next) =>
        if next > |data| || next <= index then Error
        else
          match Walk(data, next)
          case Error => Error
          case Stops(stops) => Stops([index] + stops)
  }

  /** `validate_serialized_pool` */
  predicate Validates(data: seq<u8>, count: nat) { Walk(data, 0).Stops? && |Walk(data, 0).stops| == count }

  // ---- the two agree -----------------------------------------------------------------

  /** What the counts in the headers can express. */
  predicate Expressible(o: Object) {
    match o
    case WorkingSet(_, _, _, _, children) => |children| < 0x100
    case DataMask(_, _, _, children) => |children| < 0x100
    case SoftKeyMask(_, _, keys) => |keys| < 0x100
    case Key(_, _, _, children) => |children| < 0x100
    case Button(_, _, _, _, _, _, _, children) => |children| < 0x100
    case OutputString(_, _, _, _, _, _, _, value) => |value| < 0x1_0000
    case _ => true
  }

  /** Where the objects of the list begin. */
  function Boundaries(objects: seq<Object>, from: nat): seq<nat> {
    if objects == [] then [] else [from] + Boundaries(objects[1..], from + |Encode(objects[0])|)
  }

  /** Where the count of an object stands, or 2 when it has none. */
  function CountAt(o: Object): nat {
    match o
    case WorkingSet(_, _, _, _, _) => 7
    case DataMask(_, _, _, _) => 6
    case SoftKeyMask(_, _, _) => 4
    case Key(_, _, _, _) => 5
    case Button(_, _, _, _, _, _, _, _) => 11
    case OutputString(_, _, _, _, _, _, _, _) => 14
    case _ => 2
  }

  lemma HeaderFacts(o: Object)
    ensures 2 <= CountAt(o) < |Header(o)| && Header(o)[2] == TypeOf(o)
    ensures match o
            case WorkingSet(_, _, _, _, children) => |Header(o)| == 10 && Header(o)[7] == Low8(|children|)
            case DataMask(_, _, _, children) => |Header(o)| == 8 && Header(o)[6] == Low8(|children|)
            case SoftKeyMask(_, _, keys) => |Header(o)| == 6 && Header(o)[4] == Low8(|keys|)
            case Key(_, _, _, children) => |Header(o)| == 7 && Header(o)[5] == Low8(|children|)
            case Button(_, _, _, _, _, _, _, children) => |Header(o)| == 13 && Header(o)[11] == Low8(|children|)
            case OutputString(_, _, _, _, _, _, _, value) =>
              |Header(o)| == 16 && Header(o)[14] as int + 0x100 * Header(o)[15] as int == Low16(|value|)
            case OutputNumber(_, _, _, _, _, _, _, _, _, _, _, _) => |Header(o)| == 29
            case FontAttributes(_, _, _, _, _) => |Header(o)| == 8
  {
    if o.OutputString? {
      WordBack(Low16(|o.value|));
    }
  }

  lemma WordBack(x: u16)
    ensures Word(x)[0] as int + 0x100 * Word(x)[1] as int == x
  {
  }

  /** The length an object has according to its header. */
  function Claimed(o: Object): nat {
    |Header(o)| +
    match o
    case WorkingSet(_, _, _, _, children) => 6 * Low8(|children|)
    case DataMask(_, _, _, children) => 6 * Low8(|children|)
    case SoftKeyMask(_, _, keys) => 2 * Low8(|keys|)
    case Key(_, _, _, children) => 6 * Low8(|children|)
    case Button(_, _, _, _, _, _, _, children) => 6 * Low8(|children|)
    case OutputString(_, _, _, _, _, _, _, value) => Low16(|value|) + 1
    case _ => 0
  }

  /** It has this length exactly when its count can be expressed; otherwise it is longer. */
  lemma ClaimedIff(o: Object)
    ensures 0 < Claimed(o) <= |Encode(o)|
    ensures Claimed(o) == |Encode(o)| <==> Expressible(o)
  {
    hide Header;
    HeaderFacts(o);
  }

  /** The cursor moves as far as the header claims. */
  lemma AdvanceAsClaimed(data: seq<u8>, index: nat, o: Object)
    requires index + |Encode(o)| <= |data| && data[index..index + |Encode(o)|] == Encode(o)
    ensures Advance(data, index) == At(index + Claimed(o))
  {
    hide Header, Places, Words;
    HeaderFacts(o);
    var here, k := data[index..index + |Encode(o)|], CountAt(o);
    assert data[index + 2] == here[2] == Header(o)[2];
    assert data[index + k] == here[k] == Header(o)[k];
    if o.OutputString? {
      assert data[index + 15] == here[15] == Header(o)[15];
    }
  }

  /** The cursor moves over exactly one object. */
  lemma AdvanceOverOne(data: seq<u8>, index: nat, o: Object)
    requires index + |Encode(o)| <= |data| && data[index..index + |Encode(o)|] == Encode(o) && Expressible(o)
    ensures Advance(data, index) == At(index + |Encode(o)|) && |Encode(o)| > 0
  {
    hide Encode, Claimed, Expressible, Advance;
    AdvanceAsClaimed(data, index, o);
    ClaimedIff(o);
  }

  lemma {:induction false} WalkOverAll(data: seq<u8>, index: nat, objects: seq<Object>)
    requires index <= |data| && data[index..] == Emit(objects)
    requires forall i | 0 <= i < |objects| :: Expressible(objects[i])
    ensures Walk(data, index) == Stops(Boundaries(objects, index)) && |Boundaries(objects, index)| == |objects|
    decreases |objects|
  {
    hide Encode, Advance, Expressible;
    if objects != [] {
      var o := objects[0];
      var next := index + |Encode(o)|;
      assert data[index..][..|Encode(o)|] == Encode(o) && data[index..][|Encode(o)|..] == Emit(objects[1..]);
      assert data[index..next] == data[index..][..|Encode(o)|] && data[next..] == data[index..][|Encode(o)|..];
      AdvanceOverOne(data, index, o);
      WalkOverAll(data, next, objects[1..]);
    }
  }

  /** The validator accepts what was emitted, stops at the beginning of every object and
      nowhere else, and counts as many objects as there are. */
  lemma {:induction false} ValidatorAgrees(objects: seq<Object>)
    requires forall i | 0 <= i < |objects| :: Expressible(objects[i])
    ensures Validates(Emit(objects), |objects|)
    ensures Walk(Emit(objects), 0) == Stops(Boundaries(objects, 0))
  {
    assert Emit(objects)[0..] == Emit(objects);
    WalkOverAll(Emit(objects), 0, objects);
  }

  lemma EmitOne(o: Object)
    ensures Emit([o]) == Encode(o)
  {
    hide Encode;
    var objects := [o];
    assert objects[1..] == [] && Emit(objects) == Encode(o) + Emit([]);
    assert Encode(o) + [] == Encode(o);
  }

  /** A pool of one object passes exactly when its count can be expressed: the bytes behind a
      wrapped count make the cursor stop again, or fail. */
  lemma OneObjectIff(o: Object)
    ensures Validates(Emit([o]), 1) <==> Expressible(o)
  {
    hide Encode, Claimed, Expressible, Advance;
    var data := Emit([o]);
    EmitOne(o);
    assert data[0..0 + |Encode(o)|] == Encode(o);
    AdvanceAsClaimed(data, 0, o);
    ClaimedIff(o);
    assert Walk(data, |data|) == Stops([]);
    if Claimed(o) < |data| {
      StopsAgain(data, Claimed(o));
    }
  }

  lemma StopsAgain(data: seq<u8>, index: nat)
    requires index < |data|
    ensures Walk(data, index).Stops? ==> Walk(data, index).stops != []
  {
  }

  /** A soft key mask with 256 keys or more does not pass. */
  lemma TooManyKeys(id: u16, colour: u8, keys: seq<u16>)
    requires |keys| >= 0x100
    ensures !Validates(Emit([SoftKeyMask(id, colour, keys)]), 1)
  {
    OneObjectIff(SoftKeyMask(id, colour, keys));
  }

  // ---- what is emitted ---------------------------------------------------------------

  predicate NoTypeTwice(order: seq<u8>) { forall i, j | 0 <= i < j < |order| :: order[i] != order[j] }

  lemma {:induction false} OfTypeCount(objects: seq<Object>, t: u8, o: Object)
    ensures multiset(OfType(objects, t))[o] == if TypeOf(o) == t then multiset(objects)[o] else 0
  {
    if objects != [] {
      OfTypeCount(objects[1..], t, o);
      assert objects == [objects[0]] + objects[1..];
    }
  }

  lemma {:induction false} ArrangedCount(objects: seq<Object>, order: seq<u8>, o: Object)
    requires NoTypeTwice(order)
    ensures multiset(Arranged(objects, order))[o] == if TypeOf(o) in order then multiset(objects)[o] else 0
  {
    if order != [] {
      assert forall i | 0 <= i < |order| - 1 :: order[1..][i] == order[i + 1];
      ArrangedCount(objects, order[1..], o);
      OfTypeCount(objects, order[0], o);
      assert order == [order[0]] + order[1..];
    }
  }

  lemma OrderIsComplete(o: Object)
    ensures NoTypeTwice(ORDER) && TypeOf(o) in ORDER
  {
    assert ORDER[0] == WORKING_SET && ORDER[1] == FONT_ATTRIBUTES && ORDER[2] == SOFT_KEY_MASK && ORDER[3] == KEY
           && ORDER[4] == BUTTON && ORDER[5] == OUTPUT_STRING && ORDER[6] == OUTPUT_NUMBER && ORDER[7] == DATA_MASK;
  }

  /** Every object is emitted exactly once, whatever their order in the file. */
  lemma {:induction false} EmittedOnce(objects: seq<Object>)
    ensures multiset(Arranged(objects, ORDER)) == multiset(objects)
    ensures |Arranged(objects, ORDER)| == |objects|
  {
    forall o ensures multiset(Arranged(objects, ORDER))[o] == multiset(objects)[o] {
      OrderIsComplete(o);
      ArrangedCount(objects, ORDER, o);
    }
    assert multiset(Arranged(objects, ORDER)) == multiset(objects);
    assert |multiset(Arranged(objects, ORDER))| == |Arranged(objects, ORDER)|;
  }

  /** The generator's own check never fails for objects whose counts can be expressed. */
  lemma {:induction false} GenerateValidates(objects: seq<Object>)
    requires forall i | 0 <= i < |objects| :: Expressible(objects[i])
    ensures Validates(Emit(Arranged(objects, ORDER)), |objects|)
  {
    var arranged := Arranged(objects, ORDER);
    EmittedOnce(objects);
    forall i | 0 <= i < |arranged| ensures Expressible(arranged[i]) {
      assert arranged[i] in multiset(arranged);
      assert arranged[i] in multiset(objects);
    }
    ValidatorAgrees(arranged);
  }

  // ---- the generator object ----------------------------------------------------------

  class IopGenerator {
    const objects: seq<Object>
    var output: seq<u8>

    constructor (objects: seq<Object>)
      ensures this.objects == objects && output == []
    {
      this.objects, output := objects, [];
    }

    /** `validate_serialized_pool`: false stands for the error it raises. */
    method ValidateSerializedPool() returns (ok: bool)
      ensures ok <==> Validates(output, |objects|)
    {
      hide Advance;
      var index, objectCount := 0, 0;
      ok := true;
      while ok && index < |output|
        invariant 0 <= index
        invariant ok ==> index <= |output| && Joins(Walk(output, 0), objectCount, Walk(output, index))
        invariant !ok ==> Walk(output, 0) == Error
        decreases ok, |output| - index
      {
        match Advance(output, index)
        case Failed => ok := false;
        case At(next) =>
          AdvanceMoves(output, index);
          if next > |output| {
            ok := false;
          } else {
            index := next;
            objectCount := objectCount + 1;
          }
      }
      ok := ok && objectCount == |objects|;
    }

    method EmitType(t: u8)
      modifies this`output
      ensures output == old(output) + Emit(OfType(objects, t))
    {
      hide Encode, TypeOf, Emit, OfType;
      assert objects[0..] == objects && objects[|objects|..] == [];
      var i := 0;
      while i < |objects|
        invariant 0 <= i <= |objects|
        invariant output + Emit(OfType(objects[i..], t)) == old(output) + Emit(OfType(objects, t))
      {
        EmitTypeStep(objects, i, t);
        if TypeOf(objects[i]) == t {
          output := output + Encode(objects[i]);
        }
        i := i + 1;
      }
      NothingEmitted(t);
      assert output + [] == output;
    }

    method Generate() returns (ok: bool)
      requires output == []
      modifies this`output
      ensures output == Emit(Arranged(objects, ORDER))
      ensures ok <==> Validates(output, |objects|)
    {
      hide Encode, TypeOf, Emit, OfType;
      var t := 0;
      while t < |ORDER|
        invariant 0 <= t <= |ORDER|
        invariant output + Emit(Arranged(objects, ORDER[t..])) == Emit(Arranged(objects, ORDER))
      {
        EmitAppend(OfType(objects, ORDER[t]), Arranged(objects, ORDER[t + 1..]));
        assert ORDER[t..][1..] == ORDER[t + 1..];
        EmitType(ORDER[t]);
        t := t + 1;
      }
      NothingEmitted(0);
      assert output + [] == output;
      ok := ValidateSerializedPool();
    }
  }

  lemma EmitTypeStep(objects: seq<Object>, i: nat, t: u8)
    requires i < |objects|
    ensures Emit(OfType(objects[i..], t))
            == (if TypeOf(objects[i]) == t then Encode(objects[i]) else []) + Emit(OfType(objects[i + 1..], t))
  {
    hide Encode, TypeOf;
    assert objects[i..][1..] == objects[i + 1..];
    if TypeOf(objects[i]) == t {
      EmitAppend([objects[i]], OfType(objects[i + 1..], t));
      assert [objects[i]][1..] == [] && Encode(objects[i]) + [] == Encode(objects[i]);
    } else {
      assert [] + OfType(objects[i + 1..], t) == OfType(objects[i + 1..], t);
    }
  }

  lemma NothingEmitted(t: u8)
    ensures Emit([]) == [] && OfType([], t) == []
  {
  }

  /** `part` is what is left of `whole` after `n` stops. */
  predicate Joins(whole: Verdict, n: nat, part: Verdict) {
    (whole == Error <==> part == Error) && (whole.Stops? && part.Stops? ==> |whole.stops| == n + |part.stops|)
  }

  lemma AdvanceMoves(data: seq<u8>, index: nat)
    requires index <= |data|
    ensures Advance(data, index).At? ==> Advance(data, index).index > index
  {
  }

  lemma {:induction false} EmitAppend(a: seq<Object>, b: seq<Object>)
    ensures Emit(a + b) == Emit(a) + Emit(b)
  {
    if a == [] {
      assert a + b == b;
    } else {
      assert (a + b)[1..] == a[1..] + b;
      EmitAppend(a[1..], b);
    }
  }
}
