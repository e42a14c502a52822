/** Which elements of a pool are booms, sub booms and sections, said of the pool alone: by the
    types of the elements and by who is under whom. The extraction finds exactly these. */
module GeometryShape {
  import opened Widths
  import opened Ddop
  import opened Geometry
  import DdopPools

  /** Element `k` is of this type and has element `above` as its parent. */
  predicate Below(pool: Pool, k: nat, above: nat, t: u8) {
    && k < |pool| && above < |pool| && pool[k].Element? && pool[above].Element?
    && pool[k].elementType == t && pool[k].parent == pool[above].objectId
  }

  /** The root is the first element whose parent is the device, which has number 0. */
  ghost predicate IsRoot(pool: Pool, r: nat) {
    && r < |pool| && pool[r].Element? && pool[r].parent == 0
    && (forall j | 0 <= j < r && pool[j].Element? :: pool[j].parent != 0)
    && (exists d | 0 <= d < |pool| :: pool[d].Device?)
  }

  /** A boom is a function under the root, or the root itself if there is no function under it. */
  ghost predicate IsBoom(pool: Pool, k: nat) {
    exists r: nat :: IsRoot(pool, r) && (Below(pool, k, r, FUNCTION) || (k == r && forall j: nat :: !Below(pool, j, r, FUNCTION)))
  }

  /** A sub boom is a function under a boom that is a function itself. */
  predicate IsSubBoom(pool: Pool, k: nat, boom: nat) {
    boom < |pool| && pool[boom].Element? && pool[boom].elementType == FUNCTION && Below(pool, k, boom, FUNCTION)
  }

  /** Sections belong to sub booms, and to booms without sub booms. */
  ghost predicate HasSections(pool: Pool, x: nat) {
    || (exists b: nat :: IsBoom(pool, b) && IsSubBoom(pool, x, b))
    || (IsBoom(pool, x) && forall j: nat :: !IsSubBoom(pool, j, x))
  }

  predicate Rising(s: seq<nat>) { forall i, j | 0 <= i < j < |s| :: s[i] < s[j] }

  /** A list has exactly the places with this property, each once and in pool order. */
  ghost predicate Lists(s: seq<nat>, p: nat -> bool) { Rising(s) && forall k: nat :: k in s <==> p(k) }

  lemma {:induction false} UnderIff(pool: Pool, parent: u16, t: u8, n: nat)
    requires n <= |pool|
    ensures Rising(Under(pool, parent, t, n)) && forall k: nat :: k in Under(pool, parent, t, n) <==> k < n && IsUnder(pool, k, parent, t)
  {
    if n > 0 {
      UnderIff(pool, parent, t, n - 1);
      UnderStep(pool, parent, t, n);
    }
  }

  lemma BelowIff(pool: Pool, above: nat, t: u8)
    requires above < |pool| && pool[above].Element?
    ensures Lists(AllUnder(pool, pool[above].objectId, t), (k: nat) => Below(pool, k, above, t))
  {
    UnderIff(pool, pool[above].objectId, t, |pool|);
  }

  lemma RootIff(pool: Pool)
    ensures forall r: nat :: IsRoot(pool, r) <==> DeviceFrom(pool, 0) < |pool| && r == RootFrom(pool, 0) && r < |pool|
  {
  }

  lemma BoomElementsIff(pool: Pool)
    ensures Lists(BoomElements(pool), (k: nat) => IsBoom(pool, k))
  {
    hide Under, IsRoot;
    RootIff(pool);
    var root := RootFrom(pool, 0);
    if DeviceFrom(pool, 0) < |pool| && root < |pool| {
      BelowIff(pool, root, FUNCTION);
      var functions := AllUnder(pool, pool[root].objectId, FUNCTION);
      assert forall k: nat :: k in functions <==> Below(pool, k, root, FUNCTION);
      assert functions != [] ==> functions[0] in functions && Below(pool, functions[0], root, FUNCTION);
      assert forall k: nat :: k in BoomElements(pool)
               <==> Below(pool, k, root, FUNCTION) || (k == root && forall j: nat :: !Below(pool, j, root, FUNCTION));
      assert IsRoot(pool, root);
      assert forall k: nat :: IsBoom(pool, k)
               <==> Below(pool, k, root, FUNCTION) || (k == root && forall j: nat :: !Below(pool, j, root, FUNCTION));
    } else {
      assert forall k: nat :: !IsBoom(pool, k);
    }
  }

  function Elements(booms: seq<Boom>): seq<nat> { seq(|booms|, i requires 0 <= i < |booms| => booms[i].element) }

  /** What a reported boom consists of. */
  ghost predicate Reports(pool: Pool, b: Boom) {
    && Lists(SubElements(b.subBooms), (k: nat) => IsSubBoom(pool, k, b.element))
    && (forall i | 0 <= i < |b.subBooms| ::
          Lists(b.subBooms[i].sections, (k: nat) => Below(pool, k, b.subBooms[i].element, SECTION)))
    && (if b.subBooms == [] then Lists(b.sections, (k: nat) => Below(pool, k, b.element, SECTION)) else b.sections == [])
  }

  lemma BoomReports(pool: Pool, b: nat)
    requires b < |pool| && pool[b].Element?
    ensures Reports(pool, BoomAt(pool, b)) && BoomAt(pool, b).element == b
  {
    hide Lists, Under;
    BelowIff(pool, b, SECTION);
    SubBoomsReport(pool, b);
  }

  lemma SubBoomsReport(pool: Pool, b: nat)
    requires b < |pool| && pool[b].Element?
    ensures var boom := BoomAt(pool, b);
            && Lists(SubElements(boom.subBooms), (k: nat) => IsSubBoom(pool, k, b))
            && forall i | 0 <= i < |boom.subBooms| ::
                 Lists(boom.subBooms[i].sections, (k: nat) => Below(pool, k, boom.subBooms[i].element, SECTION))
  {
    hide Under;
    var subs := AllUnder(pool, pool[b].objectId, FUNCTION);
    var boom := BoomAt(pool, b);
    BelowIff(pool, b, FUNCTION);
    if pool[b].elementType == FUNCTION {
      SubBoomElements(pool, subs);
    }
    forall i | 0 <= i < |boom.subBooms|
      ensures Lists(boom.subBooms[i].sections, (k: nat) => Below(pool, k, boom.subBooms[i].element, SECTION))
    {
      BelowIff(pool, subs[i], SECTION);
    }
  }

  /** The reported booms are exactly the booms of the pool, each once and in pool order, and each
      has exactly its sub booms and sections. */
  lemma BoomsIff(pool: Pool)
    ensures Lists(Elements(Booms(pool)), (k: nat) => IsBoom(pool, k))
    ensures forall i | 0 <= i < |Booms(pool)| :: Reports(pool, Booms(pool)[i])
  {
    hide Lists, Reports, BoomElements, BoomAt;
    BoomElementsIff(pool);
    var ks := BoomElements(pool);
    forall i | 0 <= i < |ks| ensures Reports(pool, Booms(pool)[i]) && Booms(pool)[i].element == ks[i] {
      BoomReports(pool, ks[i]);
    }
    assert Elements(Booms(pool)) == ks;
  }

  /** A pool with a device and an element under it has at least one boom. */
  lemma SomeBoom(pool: Pool, d: nat, e: nat)
    requires d < |pool| && pool[d].Device? && e < |pool| && pool[e].Element? && pool[e].parent == 0
    ensures Booms(pool) != []
  {
    hide BoomElements, BoomAt;
    BoomElementsNotEmpty(pool, d, e);
  }

  lemma BoomElementsNotEmpty(pool: Pool, d: nat, e: nat)
    requires d < |pool| && pool[d].Device? && e < |pool| && pool[e].Element? && pool[e].parent == 0
    ensures BoomElements(pool) != []
  {
  }

  // ---- sections ----------------------------------------------------------------------

  lemma LeavesAtIff(pool: Pool, b: nat, x: nat)
    requires b < |pool| && pool[b].Element?
    ensures x in LeavesAt(pool, b) <==> IsSubBoom(pool, x, b) || (x == b && forall j: nat :: !IsSubBoom(pool, j, b))
  {
    hide BoomAt, Reports;
    BoomReports(pool, b);
    var subs := SubElements(BoomAt(pool, b).subBooms);
    SubsFromReport(pool, b);
    assert BoomAt(pool, b).subBooms != [] ==> subs[0] in subs;
  }

  lemma SubsFromReport(pool: Pool, b: nat)
    requires b < |pool| && pool[b].Element?
    ensures forall k: nat :: k in SubElements(BoomAt(pool, b).subBooms) <==> IsSubBoom(pool, k, b)
  {
    hide BoomAt;
    SubBoomsReport(pool, b);
  }

  lemma {:induction false} LeavesIff(pool: Pool, bs: seq<nat>, x: nat)
    requires forall i | 0 <= i < |bs| :: bs[i] < |pool| && pool[bs[i]].Element?
    ensures x in Leaves(BoomsAt(pool, bs)) <==> exists i :: 0 <= i < |bs| && x in LeavesAt(pool, bs[i])
  {
    hide BoomAt, SubElements;
    if bs != [] {
      assert BoomsAt(pool, bs)[1..] == BoomsAt(pool, bs[1..]);
      LeavesIff(pool, bs[1..], x);
      BoomElement(pool, bs[0]);
      var first, others := LeavesAt(pool, bs[0]), Leaves(BoomsAt(pool, bs[1..]));
      assert Leaves(BoomsAt(pool, bs)) == first + others;
      assert forall i | 0 <= i < |bs| - 1 :: bs[1..][i] == bs[i + 1];
      if i :| 0 <= i < |bs| && x in LeavesAt(pool, bs[i]) {
        assert i > 0 ==> bs[1..][i - 1] == bs[i];
      }
    }
  }

  lemma LeavesArePlaces(pool: Pool, x: nat)
    ensures x in Leaves(Booms(pool)) <==> HasSections(pool, x)
  {
    hide Leaves, LeavesAt, BoomElements, BoomsAt, IsBoom;
    var ks := BoomElements(pool);
    BoomElementsIff(pool);
    LeavesIff(pool, ks, x);
    forall b | b in ks ensures x in LeavesAt(pool, b) <==> IsSubBoom(pool, x, b) || (x == b && forall j: nat :: !IsSubBoom(pool, j, b)) {
      LeavesAtIff(pool, b, x);
    }
    assert forall k: nat :: k in ks <==> IsBoom(pool, k);
  }

  /** An element is reported as a section, once, exactly when it is a section under a sub boom or
      under a boom without sub booms; no other element is. */
  lemma {:induction false} SectionsIff(pool: Pool, k: nat)
    requires DdopPools.Sound(pool)
    ensures multiset(Sections(Booms(pool)))[k]
            == if exists x: nat :: HasSections(pool, x) && Below(pool, k, x, SECTION) then 1 else 0
  {
    hide DdopPools.Sound, Booms, Leaves, Sections, HasSections;
    SectionsConserved(pool, k);
    forall x: nat ensures x in Leaves(Booms(pool)) <==> HasSections(pool, x) {
      LeavesArePlaces(pool, x);
    }
    forall x: nat | HasSections(pool, x) ensures IsSectionOf(pool, k, x) <==> Below(pool, k, x, SECTION) {
      PlaceIsElement(pool, x);
    }
  }

  lemma PlaceIsElement(pool: Pool, x: nat)
    requires HasSections(pool, x)
    ensures x < |pool| && pool[x].Element?
  {
  }
}
