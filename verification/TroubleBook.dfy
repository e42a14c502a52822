/** Where every trouble code is, told from the operations alone. The book has one mark for each
    code: whether it is active, when it became active and inactive, and its count. It has no
    lists and no positions; in every run the two lists agree with it. */
module TroubleBook {
  import opened Widths
  import opened TroubleCodes

  datatype Mark = Mark(active: bool, activated: nat, retired: nat, count: u8)

  type Book = map<Code, Mark>

  predicate Meant(code: Code, spn: Spn, fmi: Fmi) { code.spn == spn && code.fmi == fmi }

  predicate Earlier(m: Mark, n: Mark) {
    if m.active then m.activated < n.activated
    else m.retired < n.retired || (m.retired == n.retired && m.activated < n.activated)
  }

  predicate IsMarked(b: Book, code: Code, active: bool) { code in b && b[code].active == active }

  /** A request means the code that has been active, or inactive, for the longest time. */
  ghost predicate IsOldest(b: Book, code: Code, active: bool, spn: Spn, fmi: Fmi) {
    && IsMarked(b, code, active) && Meant(code, spn, fmi)
    && forall other | IsMarked(b, other, active) && Meant(other, spn, fmi) && other != code :: Earlier(b[code], b[other])
  }

  /** The operations that make an active code inactive, and those that erase an inactive one. */
  ghost predicate Retires(b: Book, op: Operation, code: Code) {
    match op
    case SetInactive(c) => c == code
    case ClearActive => true
    case RequestToClearActive(spn, fmi) => IsOldest(b, code, true, spn, fmi)
    case _ => false
  }

  ghost predicate Erases(b: Book, op: Operation, code: Code) {
    match op
    case ClearInactive => true
    case RequestToClearInactive(spn, fmi) => IsOldest(b, code, false, spn, fmi)
    case _ => false
  }

  /** The mark of a code after an operation; `time` numbers the operations. */
  ghost function Marked(b: Book, op: Operation, time: nat, code: Code): Mark
    requires code in b || op == SetActive(code)
  {
    if op == SetActive(code) && !IsMarked(b, code, true) then
      Mark(true, time, 0, if code in b then Low8(b[code].count as int + 1) else 1)
    else if b[code].active && Retires(b, op, code) then b[code].(active := false, retired := time)
    else b[code]
  }

  ghost function Codes(b: Book, op: Operation): set<Code> {
    (set code | code in b && !(!b[code].active && Erases(b, op, code))) + if op.SetActive? then {op.code} else {}
  }

  ghost function Enter(b: Book, op: Operation, time: nat): Book {
    map code | code in Codes(b, op) :: Marked(b, op, time, code)
  }

  ghost function BookOf(ops: seq<Operation>): Book
    decreases |ops|
  {
    if ops == [] then map[] else Enter(BookOf(ops[..|ops| - 1]), ops[|ops| - 1], |ops| - 1)
  }

  // ---- the lists agree with the book -------------------------------------------------

  ghost predicate Entered(e: Entry, b: Book, active: bool, time: nat) {
    && IsMarked(b, e.code, active) && b[e.code].count == e.occurrences
    && b[e.code].activated < time && (!active ==> b[e.code].retired < time)
  }

  /** A list has exactly the codes marked so, in the order in which they became so. */
  ghost predicate Agrees(list: seq<Entry>, b: Book, active: bool, time: nat) {
    && (forall i | 0 <= i < |list| :: Entered(list[i], b, active, time))
    && (forall i, j | 0 <= i < j < |list| :: Earlier(b[list[i].code], b[list[j].code]))
    && (forall code | IsMarked(b, code, active) :: Has(list, code))
  }

  lemma AgreesLater(list: seq<Entry>, b: Book, c: Book, active: bool, time: nat)
    requires Agrees(list, b, active, time)
    requires forall code :: IsMarked(c, code, active) <==> IsMarked(b, code, active)
    requires forall code | IsMarked(b, code, active) :: code in c && c[code] == b[code]
    ensures Agrees(list, c, active, time + 1)
  {
  }

  /** One code is no longer marked so. */
  lemma AgreesWithout(list: seq<Entry>, b: Book, c: Book, active: bool, time: nat, i: nat)
    requires Agrees(list, b, active, time) && i < |list|
    requires forall code :: IsMarked(c, code, active) <==> IsMarked(b, code, active) && code != list[i].code
    requires forall code | IsMarked(c, code, active) :: c[code] == b[code]
    ensures Agrees(Without(list, i), c, active, time + 1)
  {
    var rest := Without(list, i);
    forall j | 0 <= j < |rest| ensures rest[j] == list[if j < i then j else j + 1] && rest[j].code != list[i].code {
      var k := if j < i then j else j + 1;
      assert Earlier(b[list[if k < i then k else i].code], b[list[if k < i then i else k].code]);
    }
    forall code | IsMarked(c, code, active) ensures Has(rest, code) {
      assert Has(list, code);
      var k :| 0 <= k < |list| && list[k].code == code;
      assert rest[if k < i then k else k - 1].code == code;
    }
  }

  /** One more code is marked so, later than the others. */
  lemma AgreesAppend(list: seq<Entry>, b: Book, c: Book, active: bool, time: nat, e: Entry)
    requires Agrees(list, b, active, time)
    requires forall code :: IsMarked(c, code, active) <==> IsMarked(b, code, active) || code == e.code
    requires forall code | IsMarked(b, code, active) :: code != e.code && code in c && c[code] == b[code]
    requires Entered(e, c, active, time + 1) && (if active then c[e.code].activated == time else c[e.code].retired == time)
    ensures Agrees(list + [e], c, active, time + 1)
  {
    var all := list + [e];
    forall code | IsMarked(c, code, active) ensures Has(all, code) {
      if code == e.code {
        assert all[|list|].code == code;
      } else {
        assert Has(list, code);
        var k :| 0 <= k < |list| && list[k].code == code;
        assert all[k].code == code;
      }
    }
  }

  /** All active codes become inactive at once, in their order. */
  lemma AgreesAppendAll(inactive: seq<Entry>, active: seq<Entry>, b: Book, c: Book, time: nat)
    requires Agrees(inactive, b, false, time) && Agrees(active, b, true, time)
    requires forall code :: IsMarked(c, code, false) <==> code in b
    requires forall code | code in b :: code in c && c[code] == if b[code].active then b[code].(active := false, retired := time) else b[code]
    ensures Agrees(inactive + active, c, false, time + 1)
  {
    var all, n := inactive + active, |inactive|;
    forall i | 0 <= i < |all| ensures all[i] == if i < n then inactive[i] else active[i - n] {
    }
    forall code | IsMarked(c, code, false) ensures Has(all, code) {
      if b[code].active {
        assert IsMarked(b, code, true);
        var k :| 0 <= k < |active| && active[k].code == code;
        assert all[n + k].code == code;
      } else {
        assert IsMarked(b, code, false);
        var k :| 0 <= k < |inactive| && inactive[k].code == code;
        assert all[k].code == code;
      }
    }
  }

  lemma HasIffMarked(list: seq<Entry>, b: Book, active: bool, time: nat, code: Code)
    requires Agrees(list, b, active, time)
    ensures Has(list, code) <==> IsMarked(b, code, active)
    ensures Find(list, code, 0) < |list| <==> IsMarked(b, code, active)
  {
  }

  /** The first code of a list that a request can mean is the oldest one. */
  lemma FirstIsOldest(list: seq<Entry>, b: Book, active: bool, time: nat, spn: Spn, fmi: Fmi)
    requires Agrees(list, b, active, time)
    ensures var i := FindMatch(list, spn, fmi, 0);
            forall code :: IsOldest(b, code, active, spn, fmi) <==> i < |list| && code == list[i].code
  {
    var i := FindMatch(list, spn, fmi, 0);
    if i < |list| {
      forall other | IsMarked(b, other, active) && Meant(other, spn, fmi) && other != list[i].code
        ensures Earlier(b[list[i].code], b[other])
      {
        assert Has(list, other);
        var k :| 0 <= k < |list| && list[k].code == other;
      }
      assert IsMarked(b, list[i].code, active);
      assert IsOldest(b, list[i].code, active, spn, fmi);
    }
    forall code | IsOldest(b, code, active, spn, fmi) ensures i < |list| && code == list[i].code {
      assert Has(list, code);
      var k :| 0 <= k < |list| && list[k].code == code;
      if i < |list| && code != list[i].code {
        assert IsMarked(b, list[i].code, active);
        assert Earlier(b[code], b[list[i].code]);
      }
    }
  }

  ghost predicate Kept(s: Lists, b: Book, time: nat) { Agrees(s.active, b, true, time) && Agrees(s.inactive, b, false, time) }

  lemma ActivateKeeps(s: Lists, b: Book, time: nat, code: Code)
    requires Kept(s, b, time)
    ensures Kept(Activate(s, code).lists, Enter(b, SetActive(code), time), time + 1)
  {
    hide Agrees, Find, Low8;
    var c := Enter(b, SetActive(code), time);
    HasIffMarked(s.active, b, true, time, code);
    HasIffMarked(s.inactive, b, false, time, code);
    if IsMarked(b, code, true) {
      AgreesLater(s.active, b, c, true, time);
      AgreesLater(s.inactive, b, c, false, time);
    } else {
      var i := Find(s.inactive, code, 0);
      if i < |s.inactive| {
        EnteredAt(s.inactive, b, false, time, i);
        AgreesWithout(s.inactive, b, c, false, time, i);
      } else {
        AgreesLater(s.inactive, b, c, false, time);
      }
      AgreesAppend(s.active, b, c, true, time, Entry(code, c[code].count));
    }
  }

  lemma EnteredAt(list: seq<Entry>, b: Book, active: bool, time: nat, i: nat)
    requires Agrees(list, b, active, time) && i < |list|
    ensures Entered(list[i], b, active, time)
  {
  }

  /** One active code becomes inactive. */
  lemma RetireKeeps(s: Lists, b: Book, c: Book, time: nat, a: nat)
    requires Kept(s, b, time) && a < |s.active|
    requires forall code :: code in c <==> code in b
    requires forall code | code in b :: code in c && c[code] ==
               if code == s.active[a].code then b[code].(active := false, retired := time) else b[code]
    ensures Kept(Lists(Without(s.active, a), s.inactive + [s.active[a]]), c, time + 1)
  {
    hide Agrees;
    EnteredAt(s.active, b, true, time, a);
    AgreesWithout(s.active, b, c, true, time, a);
    AgreesAppend(s.inactive, b, c, false, time, s.active[a]);
  }

  lemma SameKeeps(s: Lists, b: Book, time: nat)
    requires Kept(s, b, time)
    ensures Kept(s, b, time + 1)
  {
    hide Agrees;
    AgreesLater(s.active, b, b, true, time);
    AgreesLater(s.inactive, b, b, false, time);
  }

  /** One inactive code is erased. */
  lemma EraseKeeps(s: Lists, b: Book, c: Book, time: nat, i: nat)
    requires Kept(s, b, time) && i < |s.inactive|
    requires forall code :: code in c <==> code in b && code != s.inactive[i].code
    requires forall code | code in c :: code in b && c[code] == b[code]
    ensures Kept(s.(inactive := Without(s.inactive, i)), c, time + 1)
  {
    hide Agrees;
    EnteredAt(s.inactive, b, false, time, i);
    AgreesLater(s.active, b, c, true, time);
    AgreesWithout(s.inactive, b, c, false, time, i);
  }

  lemma DeactivateKeeps(s: Lists, b: Book, time: nat, code: Code)
    requires Kept(s, b, time)
    ensures Kept(Deactivate(s, code).lists, Enter(b, SetInactive(code), time), time + 1)
  {
    hide Agrees, Find;
    HasIffMarked(s.active, b, true, time, code);
    HasIffMarked(s.inactive, b, false, time, code);
    var c := Enter(b, SetInactive(code), time);
    var a := Find(s.active, code, 0);
    if a < |s.active| {
      RetireKeeps(s, b, c, time, a);
    } else {
      assert c == b;
      SameKeeps(s, b, time);
    }
  }

  lemma ClearActiveKeeps(s: Lists, b: Book, time: nat)
    requires Kept(s, b, time)
    ensures Kept(Lists([], s.inactive + s.active), Enter(b, ClearActive, time), time + 1)
  {
    var c := Enter(b, ClearActive, time);
    assert Agrees([], c, true, time + 1);
    hide Agrees;
    AgreesAppendAll(s.inactive, s.active, b, c, time);
  }

  lemma ClearInactiveKeeps(s: Lists, b: Book, time: nat)
    requires Kept(s, b, time)
    ensures Kept(s.(inactive := []), Enter(b, ClearInactive, time), time + 1)
  {
    var c := Enter(b, ClearInactive, time);
    assert Agrees([], c, false, time + 1);
    hide Agrees;
    AgreesLater(s.active, b, c, true, time);
  }

  lemma ClearOneActiveKeeps(s: Lists, b: Book, time: nat, spn: Spn, fmi: Fmi)
    requires Kept(s, b, time)
    ensures Kept(ClearOneActive(s, spn, fmi).lists, Enter(b, RequestToClearActive(spn, fmi), time), time + 1)
  {
    hide Agrees, FindMatch, IsOldest;
    var a := FindMatch(s.active, spn, fmi, 0);
    var c := Enter(b, RequestToClearActive(spn, fmi), time);
    FirstIsOldest(s.active, b, true, time, spn, fmi);
    if a < |s.active| {
      EnteredAt(s.active, b, true, time, a);
      RetireKeeps(s, b, c, time, a);
    } else {
      assert c == b;
      SameKeeps(s, b, time);
    }
  }

  lemma ClearOneInactiveKeeps(s: Lists, b: Book, time: nat, spn: Spn, fmi: Fmi)
    requires Kept(s, b, time)
    ensures Kept(ClearOneInactive(s, spn, fmi).lists, Enter(b, RequestToClearInactive(spn, fmi), time), time + 1)
  {
    hide Agrees, FindMatch, IsOldest;
    var i := FindMatch(s.inactive, spn, fmi, 0);
    var c := Enter(b, RequestToClearInactive(spn, fmi), time);
    FirstIsOldest(s.inactive, b, false, time, spn, fmi);
    if i < |s.inactive| {
      EnteredAt(s.inactive, b, false, time, i);
      EraseKeeps(s, b, c, time, i);
    } else {
      assert c == b;
      SameKeeps(s, b, time);
    }
  }

  lemma PerformKeeps(s: Lists, b: Book, time: nat, op: Operation)
    requires Kept(s, b, time)
    ensures Kept(Perform(s, op).lists, Enter(b, op, time), time + 1)
  {
    hide Kept, Enter, Activate, Deactivate, ClearOneActive, ClearOneInactive;
    match op
    case SetActive(code) => ActivateKeeps(s, b, time, code);
    case SetInactive(code) => DeactivateKeeps(s, b, time, code);
    case ClearActive => ClearActiveKeeps(s, b, time);
    case ClearInactive => ClearInactiveKeeps(s, b, time);
    case RequestToClearActive(spn, fmi) => ClearOneActiveKeeps(s, b, time, spn, fmi);
    case RequestToClearInactive(spn, fmi) => ClearOneInactiveKeeps(s, b, time, spn, fmi);
  }

  /** After every run each list has exactly the codes the book marks so, with their counts, in the
      order in which they became so. */
  lemma {:induction false} ListsAgree(ops: seq<Operation>)
    ensures Agrees(Run(ops).active, BookOf(ops), true, |ops|)
    ensures Agrees(Run(ops).inactive, BookOf(ops), false, |ops|)
    decreases |ops|
  {
    if ops != [] {
      hide Agrees, Perform, Enter;
      ListsAgree(ops[..|ops| - 1]);
      PerformKeeps(Run(ops[..|ops| - 1]), BookOf(ops[..|ops| - 1]), |ops| - 1, ops[|ops| - 1]);
    }
  }

  // ---- where a code is ---------------------------------------------------------------

  /** The code was set active by some operation and has not been made inactive since. */
  ghost predicate ActiveSince(ops: seq<Operation>, k: nat, code: Code) {
    && k < |ops| && ops[k] == SetActive(code)
    && forall j | k < j < |ops| :: !Retires(BookOf(ops[..j]), ops[j], code)
  }

  /** The code was made inactive while it was active, and neither activated nor erased since. */
  ghost predicate InactiveSince(ops: seq<Operation>, k: nat, code: Code) {
    && k < |ops| && IsMarked(BookOf(ops[..k]), code, true) && Retires(BookOf(ops[..k]), ops[k], code)
    && forall j | k < j < |ops| :: ops[j] != SetActive(code) && !Erases(BookOf(ops[..j]), ops[j], code)
  }

  lemma EnterMarks(b: Book, op: Operation, time: nat, code: Code)
    ensures IsMarked(Enter(b, op, time), code, true)
            <==> op == SetActive(code) || (IsMarked(b, code, true) && !Retires(b, op, code))
    ensures IsMarked(Enter(b, op, time), code, false)
            <==> op != SetActive(code)
                 && ((IsMarked(b, code, true) && Retires(b, op, code)) || (IsMarked(b, code, false) && !Erases(b, op, code)))
  {
    hide IsOldest, Low8;
  }

  lemma ActiveSinceStep(ops: seq<Operation>, k: nat, code: Code)
    requires ops != []
    ensures var init, op := ops[..|ops| - 1], ops[|ops| - 1];
            ActiveSince(ops, k, code)
            <==> (k == |init| && op == SetActive(code)) || (ActiveSince(init, k, code) && !Retires(BookOf(init), op, code))
  {
    hide Retires, BookOf;
    var init := ops[..|ops| - 1];
    assert forall j | 0 <= j <= |init| :: init[..j] == ops[..j];
  }

  lemma InactiveSinceStep(ops: seq<Operation>, k: nat, code: Code)
    requires ops != []
    ensures var init, op := ops[..|ops| - 1], ops[|ops| - 1];
            InactiveSince(ops, k, code)
            <==> (k == |init| && IsMarked(BookOf(init), code, true) && Retires(BookOf(init), op, code))
                 || (InactiveSince(init, k, code) && op != SetActive(code) && !Erases(BookOf(init), op, code))
  {
    hide Retires, Erases, BookOf, IsMarked;
    var init := ops[..|ops| - 1];
    assert forall j | 0 <= j <= |init| :: init[..j] == ops[..j];
  }

  lemma {:induction false} MarkedIff(ops: seq<Operation>, code: Code)
    ensures IsMarked(BookOf(ops), code, true) <==> exists k :: ActiveSince(ops, k, code)
    ensures IsMarked(BookOf(ops), code, false) <==> exists k :: InactiveSince(ops, k, code)
    decreases |ops|
  {
    if ops != [] {
      hide Enter, Retires, Erases, IsMarked, ActiveSince, InactiveSince;
      var init, op := ops[..|ops| - 1], ops[|ops| - 1];
      MarkedIff(init, code);
      EnterMarks(BookOf(init), op, |init|, code);
      var last := IsMarked(BookOf(init), code, true) && Retires(BookOf(init), op, code);
      forall k: nat
        ensures ActiveSince(ops, k, code)
                <==> (k == |init| && op == SetActive(code)) || (ActiveSince(init, k, code) && !Retires(BookOf(init), op, code))
      {
        ActiveSinceStep(ops, k, code);
      }
      forall k: nat
        ensures InactiveSince(ops, k, code)
                <==> (k == |init| && last) || (InactiveSince(init, k, code) && op != SetActive(code) && !Erases(BookOf(init), op, code))
      {
        InactiveSinceStep(ops, k, code);
      }
      assert op == SetActive(code) ==> ActiveSince(ops, |init|, code);
      assert last ==> InactiveSince(ops, |init|, code);
      if op == SetActive(code) {
        SetActiveLeaves(BookOf(init), op, code);
      }
      OnlyOneMark(BookOf(init), code);
    }
  }

  lemma SetActiveLeaves(b: Book, op: Operation, code: Code)
    requires op == SetActive(code)
    ensures !Retires(b, op, code) && !Erases(b, op, code)
  {
  }

  lemma OnlyOneMark(b: Book, code: Code)
    ensures !(IsMarked(b, code, true) && IsMarked(b, code, false))
  {
  }

  /** A code is on the active list exactly when it was set active and has not been made inactive
      since, by name, by a request that means it, or with all others. It is on the inactive
      list exactly when it was made inactive while it was active and has been neither set
      active nor erased since. Otherwise it is on neither. */
  lemma {:induction false} PlacesIff(ops: seq<Operation>, code: Code)
    ensures Has(Run(ops).active, code) <==> exists k :: ActiveSince(ops, k, code)
    ensures Has(Run(ops).inactive, code) <==> exists k :: InactiveSince(ops, k, code)
  {
    hide Agrees, ActiveSince, InactiveSince;
    ListsAgree(ops);
    MarkedIff(ops, code);
    HasIffMarked(Run(ops).active, BookOf(ops), true, |ops|, code);
    HasIffMarked(Run(ops).inactive, BookOf(ops), false, |ops|, code);
  }

  /** Setting a code active fails exactly when it is active, and setting it inactive exactly when
      it is inactive, so a code that was never set active can be set inactive. */
  lemma ResultIff(ops: seq<Operation>, code: Code)
    ensures Perform(Run(ops), SetActive(code)).ok <==> !IsMarked(BookOf(ops), code, true)
    ensures Perform(Run(ops), SetInactive(code)).ok <==> !IsMarked(BookOf(ops), code, false)
  {
    hide Agrees;
    ListsAgree(ops);
    HasIffMarked(Run(ops).active, BookOf(ops), true, |ops|, code);
    HasIffMarked(Run(ops).inactive, BookOf(ops), false, |ops|, code);
  }
}
