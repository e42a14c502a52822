/** A reader of the records the object pool generator emits. It knows nothing about how they are
    written: every field is looked up at its place in the record, and the bytes that are the
    same in all records of a type are checked. What it reads back shows that the bytes
    determine the objects. */
module IopReader {
  import opened Widths
  import opened IopPool

  /** An object and how many bytes it takes, or nothing that can be read. */
  datatype Reading = Bad | Got(object: Object, length: nat)

  function Size(fixed: nat, each: nat, count: nat): nat { fixed + each * count }

  function ChildrenAt(b: seq<u8>, at: nat, n: nat): (children: seq<Child>)
    requires Size(at, 6, n) <= |b|
    ensures |children| == n
  {
    seq(n, i requires 0 <= i < n => Child(Uint16At(b, at + 6 * i), Uint16At(b, at + 6 * i + 2), Uint16At(b, at + 6 * i + 4)))
  }

  function KeysAt(b: seq<u8>, at: nat, n: nat): (keys: seq<u16>)
    requires Size(at, 2, n) <= |b|
    ensures |keys| == n
  {
    seq(n, i requires 0 <= i < n => Uint16At(b, at + 2 * i))
  }

  function ReadWorkingSet(b: seq<u8>): Reading {
    if |b| < 10 || |b| < Size(10, 6, b[7]) || b[8] != 0 || b[9] != 0 then Bad
    else Got(WorkingSet(Uint16At(b, 0), b[3], b[4], Uint16At(b, 5), ChildrenAt(b, 10, b[7])), Size(10, 6, b[7]))
  }

  function ReadDataMask(b: seq<u8>): Reading {
    if |b| < 8 || |b| < Size(8, 6, b[6]) || b[7] != 0 then Bad
    else Got(DataMask(Uint16At(b, 0), b[3], Uint16At(b, 4), ChildrenAt(b, 8, b[6])), Size(8, 6, b[6]))
  }

  function ReadSoftKeyMask(b: seq<u8>): Reading {
    if |b| < 6 || |b| < Size(6, 2, b[4]) || b[5] != 0 then Bad
    else Got(SoftKeyMask(Uint16At(b, 0), b[3], KeysAt(b, 6, b[4])), Size(6, 2, b[4]))
  }

  function ReadKey(b: seq<u8>): Reading {
    if |b| < 7 || |b| < Size(7, 6, b[5]) || b[6] != 0 then Bad
    else Got(Key(Uint16At(b, 0), b[3], b[4], ChildrenAt(b, 7, b[5])), Size(7, 6, b[5]))
  }

  function ReadButton(b: seq<u8>): Reading {
    if |b| < 13 || |b| < Size(13, 6, b[11]) || b[12] != 0 then Bad
    else
      Got(Button(Uint16At(b, 0), Uint16At(b, 3), Uint16At(b, 5), b[7], b[8], b[9], b[10], ChildrenAt(b, 13, b[11])),
          Size(13, 6, b[11]))
  }

  /** The text is followed by the number of macros, which is zero. */
  function ReadOutputString(b: seq<u8>): Reading {
    if |b| < 16 then Bad
    else
      var n := Uint16At(b, 14);
      if |b| < 17 + n || Uint16At(b, 11) != 0xFFFF || b[16 + n] != 0 then Bad
      else
        Got(OutputString(Uint16At(b, 0), Uint16At(b, 3), Uint16At(b, 5), b[7], Uint16At(b, 8), b[10], b[13], b[16..16 + n]),
            17 + n)
  }

  function ReadOutputNumber(b: seq<u8>): Reading {
    if |b| < 29 || Uint16At(b, 11) != 0xFFFF || b[28] != 0 then Bad
    else
      Got(OutputNumber(Uint16At(b, 0), Uint16At(b, 3), Uint16At(b, 5), b[7], Uint16At(b, 8), b[10], Uint32At(b, 13),
                       Uint32At(b, 17), b[21..25], b[25], b[26], b[27]), 29)
  }

  function ReadFontAttributes(b: seq<u8>): Reading {
    if |b| < 8 || b[7] != 0 then Bad
    else Got(FontAttributes(Uint16At(b, 0), b[3], b[4], b[5], b[6]), 8)
  }

  /** The object at the beginning of the bytes. */
  function Read(b: seq<u8>): (r: Reading)
    ensures r.Got? ==> 0 < r.length <= |b|
  {
    if |b| < 3 then Bad
    else match b[2]
      case 0 => ReadWorkingSet(b)
      case 1 => ReadDataMask(b)
      case 4 => ReadSoftKeyMask(b)
      case 5 => ReadKey(b)
      case 6 => ReadButton(b)
      case 11 => ReadOutputString(b)
      case 12 => ReadOutputNumber(b)
      case 23 => ReadFontAttributes(b)
      case _ => Bad
  }

  datatype Readings = Unreadable | Objects(objects: seq<Object>)

  /** All the objects, one behind the other up to the end. */
  function ReadAll(b: seq<u8>): Readings
    decreases |b|
  {
    if b == [] then Objects([])
    else
      match Read(b)
      case Bad => Unreadable
      case Got(o, length) =>
        match ReadAll(b[length..])
        case Unreadable => Unreadable
        case Objects(others) => Objects([o] + others)
  }

  // ---- reading what was written ------------------------------------------------------

  lemma WordAt(b: seq<u8>, i: nat, x: u16)
    requires i + 2 <= |b| && b[i..i + 2] == Word(x)
    ensures Uint16At(b, i) == x
  {
    assert b[i] == b[i..i + 2][0] && b[i + 1] == b[i..i + 2][1];
  }

  lemma QuadAt(b: seq<u8>, i: nat, x: u32)
    requires i + 4 <= |b| && b[i..i + 4] == Quad(x)
    ensures Uint32At(b, i) == x
  {
    assert b[i] == b[i..i + 4][0] && b[i + 1] == b[i..i + 4][1] && b[i + 2] == b[i..i + 4][2] && b[i + 3] == b[i..i + 4][3];
    assert x / 0x1_0000 == x / 0x100 / 0x100 && x / 0x100_0000 == x / 0x100 / 0x100 / 0x100;
  }

  lemma Slice(b: seq<u8>, at: nat, part: seq<u8>, from: nat, to: nat)
    requires at + |part| <= |b| && b[at..at + |part|] == part && from <= to <= |part|
    ensures b[at + from..at + to] == part[from..to]
  {
    forall i | from <= i < to ensures part[i] == b[at + i] {
      assert b[at..at + |part|][i] == b[at + i];
    }
  }

  lemma {:induction false} PlacesAt(b: seq<u8>, at: nat, children: seq<Child>)
    requires Size(at, 6, |children|) <= |b| && b[at..Size(at, 6, |children|)] == Places(children)
    ensures ChildrenAt(b, at, |children|) == children
    decreases |children|
  {
    hide Uint16At;
    if children != [] {
      var rest := children[1..];
      FirstPlace(b, at, children);
      PlacesAt(b, at + 6, rest);
      forall i | 0 <= i < |children| ensures ChildrenAt(b, at, |children|)[i] == children[i] {
        if i > 0 {
          assert ChildrenAt(b, at + 6, |rest|)[i - 1] == rest[i - 1];
        }
      }
    }
  }

  lemma FirstPlace(b: seq<u8>, at: nat, children: seq<Child>)
    requires children != [] && Size(at, 6, |children|) <= |b| && b[at..Size(at, 6, |children|)] == Places(children)
    ensures Uint16At(b, at) == children[0].reference && Uint16At(b, at + 2) == children[0].x && Uint16At(b, at + 4) == children[0].y
    ensures b[at + 6..Size(at + 6, 6, |children| - 1)] == Places(children[1..])
  {
    hide Uint16At, Word, Places;
    var c, here := children[0], Places(children);
    PlacesParts(children);
    Slice(b, at, here, 0, 2);
    Slice(b, at, here, 2, 4);
    Slice(b, at, here, 4, 6);
    Slice(b, at, here, 6, |here|);
    WordAt(b, at, c.reference);
    WordAt(b, at + 2, c.x);
    WordAt(b, at + 4, c.y);
  }

  lemma PlacesParts(children: seq<Child>)
    requires children != []
    ensures var here := Places(children);
            && here[0..2] == Word(children[0].reference) && here[2..4] == Word(children[0].x) && here[4..6] == Word(children[0].y)
            && here[6..] == Places(children[1..])
  {
    hide Word;
    Parts(Word(children[0].reference), Word(children[0].x), Word(children[0].y), Places(children[1..]));
  }

  lemma Parts(x: seq<u8>, y: seq<u8>, z: seq<u8>, rest: seq<u8>)
    requires |x| == |y| == |z| == 2
    ensures var all := x + y + z + rest; all[0..2] == x && all[2..4] == y && all[4..6] == z && all[6..] == rest
  {
  }

  lemma {:induction false} WordsAt(b: seq<u8>, at: nat, keys: seq<u16>)
    requires Size(at, 2, |keys|) <= |b| && b[at..Size(at, 2, |keys|)] == Words(keys)
    ensures KeysAt(b, at, |keys|) == keys
    decreases |keys|
  {
    hide Uint16At, Word;
    if keys != [] {
      var rest := keys[1..];
      var here := b[at..Size(at, 2, |keys|)];
      assert here == Word(keys[0]) + Words(rest);
      Slice(b, at, here, 0, 2);
      Slice(b, at, here, 2, |here|);
      WordAt(b, at, keys[0]);
      WordsAt(b, at + 2, rest);
      forall i | 0 <= i < |keys| ensures KeysAt(b, at, |keys|)[i] == keys[i] {
        if i > 0 {
          assert KeysAt(b, at + 2, |rest|)[i - 1] == rest[i - 1];
        }
      }
    }
  }

  lemma WorkingSetBack(o: Object, rest: seq<u8>)
    requires o.WorkingSet? && |o.children| < 0x100
    ensures ReadWorkingSet(Encode(o) + rest) == Got(o, |Encode(o)|)
  {
    hide Uint16At, Word, Places;
    var b := Encode(o) + rest;
    assert b[0..2] == Word(o.id) && b[5..7] == Word(o.activeMask);
    WordAt(b, 0, o.id);
    WordAt(b, 5, o.activeMask);
    assert b[10..Size(10, 6, |o.children|)] == Places(o.children);
    PlacesAt(b, 10, o.children);
  }

  lemma DataMaskBack(o: Object, rest: seq<u8>)
    requires o.DataMask? && |o.children| < 0x100
    ensures ReadDataMask(Encode(o) + rest) == Got(o, |Encode(o)|)
  {
    hide Uint16At, Word, Places;
    var b := Encode(o) + rest;
    assert b[0..2] == Word(o.id) && b[4..6] == Word(o.softKeyMask);
    WordAt(b, 0, o.id);
    WordAt(b, 4, o.softKeyMask);
    assert b[8..Size(8, 6, |o.children|)] == Places(o.children);
    PlacesAt(b, 8, o.children);
  }

  lemma SoftKeyMaskBack(o: Object, rest: seq<u8>)
    requires o.SoftKeyMask? && |o.keys| < 0x100
    ensures ReadSoftKeyMask(Encode(o) + rest) == Got(o, |Encode(o)|)
  {
    hide Uint16At, Word, Words;
    var b := Encode(o) + rest;
    assert b[0..2] == Word(o.id);
    WordAt(b, 0, o.id);
    assert b[6..Size(6, 2, |o.keys|)] == Words(o.keys);
    WordsAt(b, 6, o.keys);
  }

  lemma KeyBack(o: Object, rest: seq<u8>)
    requires o.Key? && |o.children| < 0x100
    ensures ReadKey(Encode(o) + rest) == Got(o, |Encode(o)|)
  {
    hide Uint16At, Word, Places;
    var b := Encode(o) + rest;
    assert b[0..2] == Word(o.id);
    WordAt(b, 0, o.id);
    assert b[7..Size(7, 6, |o.children|)] == Places(o.children);
    PlacesAt(b, 7, o.children);
  }

  lemma ButtonBack(o: Object, rest: seq<u8>)
    requires o.Button? && |o.children| < 0x100
    ensures ReadButton(Encode(o) + rest) == Got(o, |Encode(o)|)
  {
    hide Uint16At, Word, Places;
    var b := Encode(o) + rest;
    assert b[0..2] == Word(o.id) && b[3..5] == Word(o.width) && b[5..7] == Word(o.height);
    WordAt(b, 0, o.id);
    WordAt(b, 3, o.width);
    WordAt(b, 5, o.height);
    assert b[13..Size(13, 6, |o.children|)] == Places(o.children);
    PlacesAt(b, 13, o.children);
  }

  lemma OutputStringBack(o: Object, rest: seq<u8>)
    requires o.OutputString? && |o.value| < 0x1_0000
    ensures ReadOutputString(Encode(o) + rest) == Got(o, |Encode(o)|)
  {
    hide Uint16At, Word;
    var b := Encode(o) + rest;
    assert b[0..2] == Word(o.id) && b[3..5] == Word(o.width) && b[5..7] == Word(o.height) && b[8..10] == Word(o.font) && b[11..13] == Word(0xFFFF) && b[14..16] == Word(|o.value|);
    WordAt(b, 0, o.id);
    WordAt(b, 3, o.width);
    WordAt(b, 5, o.height);
    WordAt(b, 8, o.font);
    WordAt(b, 11, 0xFFFF);
    WordAt(b, 14, |o.value|);
  }

  lemma OutputNumberHeader(o: Object)
    requires o.OutputNumber?
    ensures var h := Header(o);
            && |h| == 29 && h[0..2] == Word(o.id) && h[2] == OUTPUT_NUMBER && h[3..5] == Word(o.width) && h[5..7] == Word(o.height)
            && h[7] == o.colour && h[8..10] == Word(o.font) && h[10] == o.options && h[11..13] == Word(0xFFFF)
            && h[13..17] == Quad(o.value32) && h[17..21] == Quad(o.offset) && h[21..25] == o.scale
            && h[25] == o.decimals && h[26] == o.format && h[27] == o.justification && h[28] == 0
  {
    hide Word, Quad;
    var last := [o.decimals, o.format, o.justification, 0];
    var h := Header(o);
    assert h == Word(o.id) + [OUTPUT_NUMBER] + (Word(o.width) + Word(o.height) + [o.colour] + Word(o.font) + [o.options]
                + Word(0xFFFF) + Quad(o.value32) + Quad(o.offset) + o.scale + last);
    assert h[25] == last[0] && h[26] == last[1] && h[27] == last[2] && h[28] == last[3];
  }

  lemma OutputNumberBack(o: Object, rest: seq<u8>)
    requires o.OutputNumber?
    ensures ReadOutputNumber(Encode(o) + rest) == Got(o, |Encode(o)|)
  {
    hide Uint16At, Uint32At, Word, Quad, Header;
    var h, b := Header(o), Encode(o) + rest;
    OutputNumberHeader(o);
    assert b[..29] == h && b[0..0 + |h|] == h;
    Slice(b, 0, h, 0, 2);
    Slice(b, 0, h, 3, 5);
    Slice(b, 0, h, 5, 7);
    Slice(b, 0, h, 8, 10);
    Slice(b, 0, h, 11, 13);
    Slice(b, 0, h, 13, 17);
    Slice(b, 0, h, 17, 21);
    Slice(b, 0, h, 21, 25);
    WordAt(b, 0, o.id);
    WordAt(b, 3, o.width);
    WordAt(b, 5, o.height);
    WordAt(b, 8, o.font);
    WordAt(b, 11, 0xFFFF);
    QuadAt(b, 13, o.value32);
    QuadAt(b, 17, o.offset);
  }

  lemma FontAttributesBack(o: Object, rest: seq<u8>)
    requires o.FontAttributes?
    ensures ReadFontAttributes(Encode(o) + rest) == Got(o, |Encode(o)|)
  {
    hide Uint16At, Word;
    var b := Encode(o) + rest;
    assert b[0..2] == Word(o.id);
    WordAt(b, 0, o.id);
  }

  /** Every object whose counts can be expressed is read back from its bytes, whatever follows. */
  lemma ReadBack(o: Object, rest: seq<u8>)
    requires Expressible(o)
    ensures Read(Encode(o) + rest) == Got(o, |Encode(o)|)
  {
    hide Encode, ReadWorkingSet, ReadDataMask, ReadSoftKeyMask, ReadKey, ReadButton, ReadOutputString, ReadOutputNumber,
         ReadFontAttributes;
    TypeByte(o, rest);
    match o
    case WorkingSet(_, _, _, _, _) => WorkingSetBack(o, rest);
    case DataMask(_, _, _, _) => DataMaskBack(o, rest);
    case SoftKeyMask(_, _, _) => SoftKeyMaskBack(o, rest);
    case Key(_, _, _, _) => KeyBack(o, rest);
    case Button(_, _, _, _, _, _, _, _) => ButtonBack(o, rest);
    case OutputString(_, _, _, _, _, _, _, _) => OutputStringBack(o, rest);
    case OutputNumber(_, _, _, _, _, _, _, _, _, _, _, _) => OutputNumberBack(o, rest);
    case FontAttributes(_, _, _, _, _) => FontAttributesBack(o, rest);
  }

  lemma TypeByte(o: Object, rest: seq<u8>)
    ensures |Encode(o)| > 3 && (Encode(o) + rest)[2] == TypeOf(o)
  {
    hide Header, Tail;
    HeaderFacts(o);
  }

  lemma {:induction false} ReadAllBack(objects: seq<Object>)
    requires forall i | 0 <= i < |objects| :: Expressible(objects[i])
    ensures ReadAll(Emit(objects)) == Objects(objects)
  {
    hide Encode, Read, Expressible;
    if objects != [] {
      var o, rest := objects[0], Emit(objects[1..]);
      ReadBack(o, rest);
      TypeByte(o, rest);
      assert (Encode(o) + rest)[|Encode(o)|..] == rest;
      ReadAllBack(objects[1..]);
    }
  }

  // ---- the order of the objects ------------------------------------------------------

  /** The place of a type in the file: a working set first, data masks last. */
  function Rank(t: u8): nat {
    match t
    case 0 => 0
    case 23 => 1
    case 4 => 2
    case 5 => 3
    case 6 => 4
    case 11 => 5
    case 12 => 6
    case 1 => 7
    case _ => 8
  }

  predicate Grouped(objects: seq<Object>) {
    forall i, j | 0 <= i < j < |objects| :: Rank(TypeOf(objects[i])) <= Rank(TypeOf(objects[j]))
  }

  predicate Rising(order: seq<u8>) { forall i, j | 0 <= i < j < |order| :: Rank(order[i]) < Rank(order[j]) }

  lemma {:induction false} OfTypeIsOfType(objects: seq<Object>, t: u8)
    ensures forall o | o in OfType(objects, t) :: TypeOf(o) == t
  {
    if objects != [] {
      OfTypeIsOfType(objects[1..], t);
    }
  }

  lemma {:induction false} OfTypeTwice(objects: seq<Object>, t: u8, u: u8)
    ensures OfType(OfType(objects, t), u) == if t == u then OfType(objects, t) else []
  {
    if objects != [] {
      OfTypeTwice(objects[1..], t, u);
      var o, rest := objects[0], OfType(objects[1..], t);
      if TypeOf(o) == t {
        assert OfType(objects, t) == [o] + rest && ([o] + rest)[1..] == rest;
      } else {
        assert OfType(objects, t) == [] + rest == rest;
      }
    }
  }

  lemma {:induction false} OfTypeAppend(a: seq<Object>, b: seq<Object>, t: u8)
    ensures OfType(a + b, t) == OfType(a, t) + OfType(b, t)
  {
    if a == [] {
      assert a + b == b;
    } else {
      hide TypeOf;
      assert (a + b)[1..] == a[1..] + b && (a + b)[0] == a[0];
      OfTypeAppend(a[1..], b, t);
      var first := if TypeOf(a[0]) == t then [a[0]] else [];
      assert OfType(a + b, t) == first + (OfType(a[1..], t) + OfType(b, t));
      assert first + (OfType(a[1..], t) + OfType(b, t)) == first + OfType(a[1..], t) + OfType(b, t);
    }
  }

  lemma {:induction false} ArrangedIsGrouped(objects: seq<Object>, order: seq<u8>)
    requires Rising(order)
    ensures Grouped(Arranged(objects, order)) && forall o | o in Arranged(objects, order) :: TypeOf(o) in order
  {
    hide TypeOf, Rank;
    if order != [] {
      var rest := order[1..];
      assert forall i | 0 <= i < |rest| :: rest[i] == order[i + 1];
      ArrangedIsGrouped(objects, rest);
      OfTypeIsOfType(objects, order[0]);
      var first, others := OfType(objects, order[0]), Arranged(objects, rest);
      forall o | o in others ensures TypeOf(o) in order && Rank(order[0]) < Rank(TypeOf(o)) {
        var i :| 0 <= i < |rest| && rest[i] == TypeOf(o);
        assert order[i + 1] == TypeOf(o);
      }
      forall i, j | 0 <= i < j < |first + others|
        ensures Rank(TypeOf((first + others)[i])) <= Rank(TypeOf((first + others)[j]))
      {
        assert i < |first| ==> (first + others)[i] in first;
        assert j < |first| ==> (first + others)[j] in first;
        assert j >= |first| ==> (first + others)[j] in others;
      }
    }
  }

  /** Objects of one type keep their order. */
  lemma {:induction false} ArrangedKeepsOrder(objects: seq<Object>, order: seq<u8>, t: u8)
    requires NoTypeTwice(order)
    ensures OfType(Arranged(objects, order), t) == if t in order then OfType(objects, t) else []
  {
    if order != [] {
      hide OfType;
      var rest := order[1..];
      assert forall i | 0 <= i < |rest| :: rest[i] == order[i + 1];
      ArrangedKeepsOrder(objects, rest, t);
      var first, others := OfType(objects, order[0]), Arranged(objects, rest);
      OfTypeAppend(first, others, t);
      OfTypeTwice(objects, order[0], t);
      assert order == [order[0]] + rest;
      assert OfType(first, t) + OfType(others, t) == if t == order[0] then first else OfType(others, t);
    }
  }

  lemma {:induction false} OtherTypes(objects: seq<Object>, t: u8)
    requires t !in ORDER
    ensures OfType(objects, t) == []
  {
    if objects != [] {
      OtherTypes(objects[1..], t);
      OrderIsComplete(objects[0]);
    }
  }

  // ---- the whole file ----------------------------------------------------------------

  /** Reading everything the generator emits gives every object of the list with all its fields,
      grouped by type, those of one type in the order of the list, and nothing else. */
  lemma {:induction false} GeneratedIsRead(objects: seq<Object>)
    requires forall i | 0 <= i < |objects| :: Expressible(objects[i])
    ensures var r := ReadAll(Emit(Arranged(objects, ORDER)));
            && r.Objects? && multiset(r.objects) == multiset(objects)
            && Grouped(r.objects) && forall t: u8 :: OfType(r.objects, t) == OfType(objects, t)
  {
    hide Emit, ReadAll;
    var arranged := Arranged(objects, ORDER);
    EmittedOnce(objects);
    forall i | 0 <= i < |arranged| ensures Expressible(arranged[i]) {
      assert arranged[i] in multiset(arranged);
      assert arranged[i] in multiset(objects);
    }
    ReadAllBack(arranged);
    ArrangedIsGrouped(objects, ORDER);
    forall t: u8 ensures OfType(arranged, t) == OfType(objects, t) {
      assert NoTypeTwice(ORDER);
      ArrangedKeepsOrder(objects, ORDER, t);
      if t !in ORDER {
        OtherTypes(objects, t);
      }
    }
  }

  /** Two lists that are emitted alike have the same objects, in the same order for each type. */
  lemma {:induction false} EmittedAlikeAgree(a: seq<Object>, b: seq<Object>)
    requires forall i | 0 <= i < |a| :: Expressible(a[i])
    requires forall i | 0 <= i < |b| :: Expressible(b[i])
    requires Emit(Arranged(a, ORDER)) == Emit(Arranged(b, ORDER))
    ensures multiset(a) == multiset(b) && forall t: u8 :: OfType(a, t) == OfType(b, t)
  {
    hide Emit, Arranged, ReadAll, Expressible, OfType;
    GeneratedIsRead(a);
    GeneratedIsRead(b);
  }
}
