/** Extracting booms, sub booms and sections from a device descriptor object pool. Elements
    are named by their place in the pool. */
module Geometry {
  import opened Widths
  import opened Ddop
  import DdopPools

  const FUNCTION: u8 := 2
  const SECTION: u8 := 4

  datatype SubBoom = SubBoom(element: nat, sections: seq<nat>)

  datatype Boom = Boom(element: nat, sections: seq<nat>, subBooms: seq<SubBoom>)

  predicate IsUnder(pool: Pool, k: nat, parent: u16, t: u8) {
    k < |pool| && pool[k].Element? && pool[k].parent == parent && pool[k].elementType == t
  }

  /** The elements of a type under a parent among the first `n` objects, in pool order. */
  function Under(pool: Pool, parent: u16, t: u8, n: nat): (s: seq<nat>)
    requires n <= |pool|
    ensures forall i | 0 <= i < |s| :: s[i] < n && IsUnder(pool, s[i], parent, t)
  {
    if n == 0 then [] else Under(pool, parent, t, n - 1) + if IsUnder(pool, n - 1, parent, t) then [n - 1] else []
  }

  function AllUnder(pool: Pool, parent: u16, t: u8): (s: seq<nat>)
    ensures forall i | 0 <= i < |s| :: IsUnder(pool, s[i], parent, t)
  {
    Under(pool, parent, t, |pool|)
  }

  /** `parse_sub_boom` */
  function SubBoomAt(pool: Pool, k: nat): SubBoom
    requires k < |pool|
  {
    SubBoom(k, AllUnder(pool, pool[k].Id(), SECTION))
  }

  function SubBoomsAt(pool: Pool, ks: seq<nat>): seq<SubBoom>
    requires forall i | 0 <= i < |ks| :: ks[i] < |pool|
  {
    seq(|ks|, i requires 0 <= i < |ks| => SubBoomAt(pool, ks[i]))
  }

  /** `parse_element`: only functions have sub booms, and then no sections of their own. */
  function BoomAt(pool: Pool, k: nat): Boom
    requires k < |pool| && pool[k].Element?
  {
    var subBooms := if pool[k].elementType == FUNCTION
                    then SubBoomsAt(pool, AllUnder(pool, pool[k].objectId, FUNCTION))
                    else [];
    Boom(k, if subBooms == [] then AllUnder(pool, pool[k].objectId, SECTION) else [], subBooms)
  }

  /** The first object of the pool, from a place on, that is the device. */
  function DeviceFrom(pool: Pool, from: nat): (i: nat)
    requires from <= |pool|
    ensures from <= i <= |pool| && (i < |pool| ==> pool[i].Device?)
    ensures forall j | from <= j < i :: !pool[j].Device?
    decreases |pool| - from
  {
    if from == |pool| || pool[from].Device? then from else DeviceFrom(pool, from + 1)
  }

  /** The first element whose parent is the device. */
  function RootFrom(pool: Pool, from: nat): (i: nat)
    requires from <= |pool|
    ensures from <= i <= |pool| && (i < |pool| ==> pool[i].Element? && pool[i].parent == 0)
    ensures forall j | from <= j < i :: !(pool[j].Element? && pool[j].parent == 0)
    decreases |pool| - from
  {
    if from == |pool| || (pool[from].Element? && pool[from].parent == 0) then from else RootFrom(pool, from + 1)
  }

  function BoomsAt(pool: Pool, ks: seq<nat>): seq<Boom>
    requires forall i | 0 <= i < |ks| :: ks[i] < |pool| && pool[ks[i]].Element?
  {
    seq(|ks|, i requires 0 <= i < |ks| => BoomAt(pool, ks[i]))
  }

  /** The elements that become booms: the functions under the root, or else the root. */
  function BoomElements(pool: Pool): (ks: seq<nat>)
    ensures forall i | 0 <= i < |ks| :: ks[i] < |pool| && pool[ks[i]].Element?
  {
    var root := RootFrom(pool, 0);
    if DeviceFrom(pool, 0) == |pool| || root == |pool| then []
    else
      var functions := AllUnder(pool, pool[root].objectId, FUNCTION);
      if functions == [] then [root] else functions
  }

  /** `get_implement_geometry` */
  function Booms(pool: Pool): seq<Boom> { BoomsAt(pool, BoomElements(pool)) }

  // ---- what is reported --------------------------------------------------------------

  function SubElements(subs: seq<SubBoom>): seq<nat> { seq(|subs|, i requires 0 <= i < |subs| => subs[i].element) }

  function SubSections(subs: seq<SubBoom>): seq<nat> {
    if subs == [] then [] else subs[0].sections + SubSections(subs[1..])
  }

  /** The places sections are reported for: sub booms, and booms without sub booms. */
  function Leaves(booms: seq<Boom>): seq<nat> {
    if booms == [] then []
    else (if booms[0].subBooms == [] then [booms[0].element] else SubElements(booms[0].subBooms)) + Leaves(booms[1..])
  }

  function Sections(booms: seq<Boom>): seq<nat> {
    if booms == [] then []
    else (booms[0].sections + SubSections(booms[0].subBooms)) + Sections(booms[1..])
  }

  predicate IsSectionOf(pool: Pool, k: nat, leaf: nat) {
    leaf < |pool| && IsUnder(pool, k, pool[leaf].Id(), SECTION)
  }

  lemma MultisetAppend(s: seq<nat>, last: nat, k: nat)
    ensures multiset(s + [last])[k] == multiset(s)[k] + if last == k then 1 else 0
  {
  }

  lemma {:induction false} UnderCount(pool: Pool, parent: u16, t: u8, n: nat, k: nat)
    requires n <= |pool|
    ensures multiset(Under(pool, parent, t, n))[k] == if k < n && IsUnder(pool, k, parent, t) then 1 else 0
  {
    hide IsUnder, Under;
    UnderStep(pool, parent, t, n);
    if n > 0 {
      UnderCount(pool, parent, t, n - 1, k);
      MultisetAppend(Under(pool, parent, t, n - 1), n - 1, k);
    }
  }

  lemma UnderStep(pool: Pool, parent: u16, t: u8, n: nat)
    requires n <= |pool|
    ensures if n == 0 then Under(pool, parent, t, n) == []
            else if IsUnder(pool, n - 1, parent, t) then Under(pool, parent, t, n) == Under(pool, parent, t, n - 1) + [n - 1]
            else Under(pool, parent, t, n) == Under(pool, parent, t, n - 1)
  {
  }

  /** How many of the places have a section at `k`. */
  function Owners(pool: Pool, leaves: seq<nat>, k: nat): nat {
    if leaves == [] then 0 else (if IsSectionOf(pool, k, leaves[0]) then 1 else 0) + Owners(pool, leaves[1..], k)
  }

  lemma {:induction false} OwnersAppend(pool: Pool, a: seq<nat>, b: seq<nat>, k: nat)
    ensures Owners(pool, a + b, k) == Owners(pool, a, k) + Owners(pool, b, k)
  {
    if a == [] {
      assert a + b == b;
    } else {
      assert (a + b)[1..] == a[1..] + b;
      OwnersAppend(pool, a[1..], b, k);
    }
  }

  lemma {:induction false} SubSectionsCount(pool: Pool, ks: seq<nat>, k: nat)
    requires forall i | 0 <= i < |ks| :: ks[i] < |pool|
    ensures multiset(SubSections(SubBoomsAt(pool, ks)))[k] == Owners(pool, ks, k)
  {
    if ks != [] {
      assert SubBoomsAt(pool, ks)[1..] == SubBoomsAt(pool, ks[1..]);
      SubSectionsCount(pool, ks[1..], k);
      UnderCount(pool, pool[ks[0]].Id(), SECTION, |pool|, k);
    }
  }

  lemma BoomCount(pool: Pool, b: nat, k: nat)
    requires b < |pool| && pool[b].Element?
    ensures var boom := BoomAt(pool, b);
            multiset(boom.sections + SubSections(boom.subBooms))[k]
            == Owners(pool, if boom.subBooms == [] then [b] else SubElements(boom.subBooms), k)
  {
    hide Under, AllUnder, SubSections, SubElements, Owners;
    var boom := BoomAt(pool, b);
    if boom.subBooms == [] {
      OwnSectionsCount(pool, b, k);
      NoSubSections(boom.sections);
    } else {
      var subs := AllUnder(pool, pool[b].objectId, FUNCTION);
      SubSectionsCount(pool, subs, k);
      SubBoomElements(pool, subs);
      assert [] + SubSections(boom.subBooms) == SubSections(boom.subBooms);
    }
  }

  lemma OwnSectionsCount(pool: Pool, b: nat, k: nat)
    requires b < |pool|
    ensures multiset(AllUnder(pool, pool[b].Id(), SECTION))[k] == Owners(pool, [b], k)
  {
    UnderCount(pool, pool[b].Id(), SECTION, |pool|, k);
    assert [b][1..] == [];
  }

  lemma NoSubSections(sections: seq<nat>)
    ensures sections + SubSections([]) == sections
  {
  }

  lemma SubBoomElements(pool: Pool, ks: seq<nat>)
    requires forall i | 0 <= i < |ks| :: ks[i] < |pool|
    ensures SubElements(SubBoomsAt(pool, ks)) == ks
  {
  }

  /** A section is reported once for every leaf it belongs to. */
  lemma {:induction false} SectionsCount(pool: Pool, bs: seq<nat>, k: nat)
    requires forall i | 0 <= i < |bs| :: bs[i] < |pool| && pool[bs[i]].Element?
    ensures multiset(Sections(BoomsAt(pool, bs)))[k] == Owners(pool, Leaves(BoomsAt(pool, bs)), k)
  {
    hide SubSections, SubElements, BoomAt, Owners;
    if bs == [] {
      assert Owners(pool, [], k) == 0 by { NoOwners(pool, k); }
    } else {
      assert BoomsAt(pool, bs)[1..] == BoomsAt(pool, bs[1..]);
      SectionsCount(pool, bs[1..], k);
      BoomCount(pool, bs[0], k);
      var boom := BoomAt(pool, bs[0]);
      BoomElement(pool, bs[0]);
      OwnersAppend(pool, if boom.subBooms == [] then [boom.element] else SubElements(boom.subBooms),
                   Leaves(BoomsAt(pool, bs[1..])), k);
    }
  }

  lemma NoOwners(pool: Pool, k: nat)
    ensures Owners(pool, [], k) == 0
  {
  }

  lemma BoomElement(pool: Pool, b: nat)
    requires b < |pool| && pool[b].Element?
    ensures BoomAt(pool, b).element == b
  {
  }

  // ---- leaves are distinct -----------------------------------------------------------

  predicate Different(s: seq<nat>) { forall i, j | 0 <= i < j < |s| :: s[i] != s[j] }

  lemma {:induction false} UnderDifferent(pool: Pool, parent: u16, t: u8, n: nat)
    requires n <= |pool|
    ensures Different(Under(pool, parent, t, n))
  {
    if n > 0 {
      UnderDifferent(pool, parent, t, n - 1);
    }
  }

  function LeavesAt(pool: Pool, b: nat): (s: seq<nat>)
    requires b < |pool| && pool[b].Element?
  {
    if BoomAt(pool, b).subBooms == [] then [b] else SubElements(BoomAt(pool, b).subBooms)
  }

  /** A leaf is its boom or a function under it. */
  lemma LeavesOfBoom(pool: Pool, b: nat)
    requires b < |pool| && pool[b].Element?
    ensures Different(LeavesAt(pool, b))
    ensures forall x | x in LeavesAt(pool, b) ::
              x < |pool| && pool[x].Element? && (x == b || pool[x].parent == pool[b].objectId)
  {
    var subs := AllUnder(pool, pool[b].objectId, FUNCTION);
    UnderDifferent(pool, pool[b].objectId, FUNCTION, |pool|);
    if BoomAt(pool, b).subBooms != [] {
      assert SubElements(BoomAt(pool, b).subBooms) == subs;
    }
  }

  /** All these elements have the same parent, and none of them is that parent. */
  predicate Siblings(pool: Pool, bs: seq<nat>) {
    && Different(bs)
    && (forall i | 0 <= i < |bs| :: bs[i] < |pool| && pool[bs[i]].Element?)
    && (forall i, j | 0 <= i < |bs| && 0 <= j < |bs| ::
          pool[bs[i]].parent == pool[bs[j]].parent && pool[bs[i]].parent != pool[bs[j]].objectId)
  }

  lemma OtherLeaves(pool: Pool, b: nat, c: nat, x: nat)
    requires DdopPools.Sound(pool) && b < |pool| && c < |pool| && b != c && pool[b].Element? && pool[c].Element?
    requires pool[b].parent != pool[c].objectId && pool[c].parent != pool[b].objectId
    requires x in LeavesAt(pool, b)
    ensures x !in LeavesAt(pool, c)
  {
    LeavesOfBoom(pool, b);
    LeavesOfBoom(pool, c);
    assert pool[b].Id() != pool[c].Id() by {
      if b < c { assert pool[b].Id() != pool[c].Id(); } else { assert pool[c].Id() != pool[b].Id(); }
    }
  }

  lemma {:induction false} LeavesDifferent(pool: Pool, bs: seq<nat>)
    requires DdopPools.Sound(pool) && Siblings(pool, bs)
    ensures Different(Leaves(BoomsAt(pool, bs)))
    ensures forall x | x in Leaves(BoomsAt(pool, bs)) ::
              x < |pool| && pool[x].Element? && exists i :: 0 <= i < |bs| && x in LeavesAt(pool, bs[i])
  {
    hide BoomAt, SubElements, DdopPools.Sound;
    if bs != [] {
      var rest := bs[1..];
      assert forall i | 0 <= i < |rest| :: rest[i] == bs[i + 1];
      assert BoomsAt(pool, bs)[1..] == BoomsAt(pool, rest);
      LeavesDifferent(pool, rest);
      LeavesOfBoom(pool, bs[0]);
      BoomElement(pool, bs[0]);
      var first, others := LeavesAt(pool, bs[0]), Leaves(BoomsAt(pool, rest));
      assert Leaves(BoomsAt(pool, bs)) == first + others;
      forall x | x in others
        ensures x !in first && x < |pool| && pool[x].Element? && exists i :: 0 <= i < |bs| && x in LeavesAt(pool, bs[i])
      {
        var i :| 0 <= i < |rest| && x in LeavesAt(pool, rest[i]);
        assert bs[i + 1] == rest[i];
        OtherLeaves(pool, rest[i], bs[0], x);
      }
      DifferentJoin(first, others);
      forall x | x in first ensures exists i :: 0 <= i < |bs| && x in LeavesAt(pool, bs[i]) {
        assert x in LeavesAt(pool, bs[0]);
      }
    }
  }

  lemma DifferentJoin(a: seq<nat>, b: seq<nat>)
    requires Different(a) && Different(b) && forall x | x in b :: x !in a
    ensures Different(a + b)
  {
    forall i, j | 0 <= i < j < |a + b| ensures (a + b)[i] != (a + b)[j] {
      if i < |a| && |a| <= j {
        assert b[j - |a|] in b && a[i] in a;
      }
    }
  }

  lemma BoomsAreSiblings(pool: Pool)
    requires DdopPools.Sound(pool)
    ensures Siblings(pool, BoomElements(pool))
  {
    var root := RootFrom(pool, 0);
    if DeviceFrom(pool, 0) < |pool| && root < |pool| {
      FunctionsAreSiblings(pool, root, AllUnder(pool, pool[root].objectId, FUNCTION));
      UnderDifferent(pool, pool[root].objectId, FUNCTION, |pool|);
    }
  }

  lemma FunctionsAreSiblings(pool: Pool, root: nat, functions: seq<nat>)
    requires DdopPools.Sound(pool) && root < |pool| && pool[root].Element? && pool[root].parent == 0
    requires forall i | 0 <= i < |functions| :: IsUnder(pool, functions[i], pool[root].objectId, FUNCTION)
    ensures Siblings(pool, [root])
    ensures Different(functions) ==> Siblings(pool, functions)
  {
    forall j | 0 <= j < |functions| ensures pool[functions[j]].objectId != pool[root].objectId {
      var f := functions[j];
      assert pool[root].objectId != 0 && f != root;
      assert pool[if f < root then f else root].Id() != pool[if f < root then root else f].Id();
    }
  }

  lemma {:induction false} OwnersUnique(pool: Pool, leaves: seq<nat>, k: nat)
    requires DdopPools.Sound(pool) && Different(leaves) && forall x | x in leaves :: x < |pool|
    ensures Owners(pool, leaves, k) == if exists x :: x in leaves && IsSectionOf(pool, k, x) then 1 else 0
  {
    hide DdopPools.Sound;
    if leaves != [] {
      var rest := leaves[1..];
      assert forall i | 0 <= i < |rest| :: rest[i] == leaves[i + 1];
      assert leaves == [leaves[0]] + rest;
      assert leaves[0] in leaves && forall x | x in rest :: x in leaves && x != leaves[0];
      OwnersUnique(pool, rest, k);
      forall x | x in rest ensures !(IsSectionOf(pool, k, x) && IsSectionOf(pool, k, leaves[0])) {
        SectionHasOneOwner(pool, k, x, leaves[0]);
      }
    }
  }

  lemma SectionHasOneOwner(pool: Pool, k: nat, x: nat, y: nat)
    requires DdopPools.Sound(pool) && x < |pool| && y < |pool| && x != y
    ensures !(IsSectionOf(pool, k, x) && IsSectionOf(pool, k, y))
  {
    assert pool[if x < y then x else y].Id() != pool[if x < y then y else x].Id();
  }

  /** The reported sections are the section elements under a reported sub boom or under a
      reported boom without sub booms, each of them once, and nothing else. */
  lemma {:induction false} SectionsConserved(pool: Pool, k: nat)
    requires DdopPools.Sound(pool)
    ensures multiset(Sections(Booms(pool)))[k]
            == if exists leaf :: leaf in Leaves(Booms(pool)) && IsSectionOf(pool, k, leaf) then 1 else 0
  {
    hide DdopPools.Sound, BoomElements;
    var bs := BoomElements(pool);
    BoomsAreSiblings(pool);
    SectionsCount(pool, bs, k);
    LeavesDifferent(pool, bs);
    OwnersUnique(pool, Leaves(Booms(pool)), k);
  }

  // ---- the loops ---------------------------------------------------------------------

  method SectionsUnder(pool: Pool, parent: u16) returns (sections: seq<nat>)
    ensures sections == AllUnder(pool, parent, SECTION)
  {
    sections := [];
    for i := 0 to |pool|
      invariant sections == Under(pool, parent, SECTION, i)
    {
      if pool[i].Element? && pool[i].elementType == SECTION && pool[i].parent == parent {
        sections := sections + [i];
      }
    }
  }

  method ParseSubBoom(pool: Pool, k: nat) returns (subBoom: SubBoom)
    requires k < |pool|
    ensures subBoom == SubBoomAt(pool, k)
  {
    var sections := SectionsUnder(pool, pool[k].Id());
    subBoom := SubBoom(k, sections);
  }

  method ParseElement(pool: Pool, k: nat) returns (boom: Boom)
    requires k < |pool| && pool[k].Element?
    ensures boom == BoomAt(pool, k)
  {
    boom := Boom(k, [], []);
    if pool[k].elementType == FUNCTION {
      for i := 0 to |pool|
        invariant boom == Boom(k, [], SubBoomsAt(pool, Under(pool, pool[k].objectId, FUNCTION, i)))
      {
        if pool[i].Element? && pool[i].parent == pool[k].objectId {
          if pool[i].elementType == FUNCTION {
            var subBoom := ParseSubBoom(pool, i);
            boom := boom.(subBooms := boom.subBooms + [subBoom]);
          }
        }
      }
    }
    if boom.subBooms == [] {
      var sections := SectionsUnder(pool, pool[k].objectId);
      boom := boom.(sections := sections);
    }
  }

  /** `get_implement_geometry`: functions under the root become booms, or the root does. */
  method GetImplementGeometry(pool: Pool) returns (booms: seq<Boom>)
    ensures booms == Booms(pool)
  {
    booms := [];
    var i := 0;
    while i < |pool| && !pool[i].Device?
      invariant i <= |pool| && DeviceFrom(pool, 0) == DeviceFrom(pool, i)
    {
      i := i + 1;
    }
    if i == |pool| {
      return;
    }
    var j := 0;
    while j < |pool| && !(pool[j].Element? && pool[j].parent == pool[i].Id())
      invariant j <= |pool| && RootFrom(pool, 0) == RootFrom(pool, j)
    {
      j := j + 1;
    }
    if j == |pool| {
      return;
    }
    hide BoomAt, AllUnder;
    booms := ParseFunctions(pool, pool[j].objectId);
    if booms == [] {
      var boom := ParseElement(pool, j);
      booms := [boom];
    }
  }

  method ParseFunctions(pool: Pool, parent: u16) returns (booms: seq<Boom>)
    ensures booms == BoomsAt(pool, AllUnder(pool, parent, FUNCTION))
  {
    hide BoomAt;
    booms := [];
    for k := 0 to |pool|
      invariant booms == BoomsAt(pool, Under(pool, parent, FUNCTION, k))
    {
      if pool[k].Element? && pool[k].parent == parent && pool[k].elementType == FUNCTION {
        var boom := ParseElement(pool, k);
        booms := booms + [boom];
      }
    }
  }
}
