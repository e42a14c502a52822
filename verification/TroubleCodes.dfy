/** The lists of active and of previously active diagnostic trouble codes. */
module TroubleCodes {
  import opened Widths

  type Spn = x: int | 0 <= x < 0x8_0000
  type Fmi = x: int | 0 <= x < 0x20
  type Lamp = x: int | 0 <= x < 13

  /** What `==` compares. Requests over the bus name only the first two. */
  datatype Code = Code(spn: Spn, fmi: Fmi, lamp: Lamp)

  datatype Entry = Entry(code: Code, occurrences: u8)

  datatype Lists = Lists(active: seq<Entry>, inactive: seq<Entry>)

  datatype Reason = Unknown | NoLongerPreviouslyActive | NoLongerActive

  datatype Reply = Nothing | Ack | Nack(reason: Reason)

  datatype Changed = Changed(lists: Lists, ok: bool, reply: Reply)

  predicate Has(list: seq<Entry>, code: Code) { exists i | 0 <= i < |list| :: list[i].code == code }

  predicate HasMatch(list: seq<Entry>, spn: Spn, fmi: Fmi) {
    exists i | 0 <= i < |list| :: list[i].code.spn == spn && list[i].code.fmi == fmi
  }

  /** `std::find` */
  function Find(list: seq<Entry>, code: Code, from: nat): (i: nat)
    requires from <= |list|
    ensures from <= i <= |list|
    ensures forall j | from <= j < i :: list[j].code != code
    ensures i < |list| ==> list[i].code == code
    decreases |list| - from
  {
    if from == |list| || list[from].code == code then from else Find(list, code, from + 1)
  }

  /** The first entry a request over the bus can mean. */
  function FindMatch(list: seq<Entry>, spn: Spn, fmi: Fmi, from: nat): (i: nat)
    requires from <= |list|
    ensures from <= i <= |list|
    ensures forall j | from <= j < i :: !(list[j].code.spn == spn && list[j].code.fmi == fmi)
    ensures i < |list| ==> list[i].code.spn == spn && list[i].code.fmi == fmi
    decreases |list| - from
  {
    if from == |list| || (list[from].code.spn == spn && list[from].code.fmi == fmi) then from
    else FindMatch(list, spn, fmi, from + 1)
  }

  function Without(list: seq<Entry>, i: nat): seq<Entry>
    requires i < |list|
  {
    list[..i] + list[i + 1..]
  }

  /** `set_diagnostic_trouble_code_active(code, true)` */
  function Activate(s: Lists, code: Code): Changed {
    var a, i := Find(s.active, code, 0), Find(s.inactive, code, 0);
    if a < |s.active| then Changed(s, false, Nothing)
    else if i < |s.inactive| then
      var again := Entry(code, Low8(s.inactive[i].occurrences as int + 1));
      Changed(Lists(s.active + [again], Without(s.inactive, i)), true, Nothing)
    else Changed(s.(active := s.active + [Entry(code, 1)]), true, Nothing)
  }

  /** `set_diagnostic_trouble_code_active(code, false)` succeeds for codes it does not know. */
  function Deactivate(s: Lists, code: Code): Changed {
    var a, i := Find(s.active, code, 0), Find(s.inactive, code, 0);
    if i < |s.inactive| then Changed(s, false, Nothing)
    else if a < |s.active| then Changed(Lists(Without(s.active, a), s.inactive + [s.active[a]]), true, Nothing)
    else Changed(s, true, Nothing)
  }

  function ClearOneActive(s: Lists, spn: Spn, fmi: Fmi): Changed {
    var a := FindMatch(s.active, spn, fmi, 0);
    if a < |s.active| then Changed(Lists(Without(s.active, a), s.inactive + [s.active[a]]), true, Ack)
    else if FindMatch(s.inactive, spn, fmi, 0) < |s.inactive| then Changed(s, true, Nack(NoLongerActive))
    else Changed(s, true, Nack(Unknown))
  }

  function ClearOneInactive(s: Lists, spn: Spn, fmi: Fmi): Changed {
    var i := FindMatch(s.inactive, spn, fmi, 0);
    if i < |s.inactive| then Changed(s.(inactive := Without(s.inactive, i)), true, Ack)
    else if FindMatch(s.active, spn, fmi, 0) < |s.active| then Changed(s, true, Nack(NoLongerPreviouslyActive))
    else Changed(s, true, Nack(Unknown))
  }

  datatype Operation =
    | SetActive(code: Code)
    | SetInactive(code: Code)
    | ClearActive
    | ClearInactive
    | RequestToClearActive(spn: Spn, fmi: Fmi)
    | RequestToClearInactive(spn: Spn, fmi: Fmi)

  function Perform(s: Lists, op: Operation): Changed {
    match op
    case SetActive(code) => Activate(s, code)
    case SetInactive(code) => Deactivate(s, code)
    case ClearActive => Changed(Lists([], s.inactive + s.active), true, Nothing)
    case ClearInactive => Changed(s.(inactive := []), true, Nothing)
    case RequestToClearActive(spn, fmi) => ClearOneActive(s, spn, fmi)
    case RequestToClearInactive(spn, fmi) => ClearOneInactive(s, spn, fmi)
  }

  function Run(ops: seq<Operation>): Lists
    decreases |ops|
  {
    if ops == [] then Lists([], []) else Perform(Run(ops[..|ops| - 1]), ops[|ops| - 1]).lists
  }

  // ---- what the counts mean ----------------------------------------------------------

  predicate Known(s: Lists, code: Code) { Has(s.active, code) || Has(s.inactive, code) }

  /** How often a code was activated since it was erased last, told from the operations and
      from which codes are known, without looking at any count. */
  function Activations(ops: seq<Operation>, code: Code): nat
    decreases |ops|
  {
    if ops == [] then 0
    else
      var init, op := ops[..|ops| - 1], ops[|ops| - 1];
      if !Known(Run(ops), code) then 0
      else if op == SetActive(code) && !Has(Run(init).active, code) then Activations(init, code) + 1
      else Activations(init, code)
  }

  function Together(s: Lists): seq<Entry> { s.active + s.inactive }

  predicate NoneTwice(list: seq<Entry>) { forall i, j | 0 <= i < j < |list| :: list[i].code != list[j].code }

  /** Every entry of `y` comes from another place of `x`. */
  lemma Rearranged(x: seq<Entry>, y: seq<Entry>, from: int -> int)
    requires forall j | 0 <= j < |y| :: 0 <= from(j) < |x| && y[j] == x[from(j)]
    requires forall j, k | 0 <= j < k < |y| :: from(j) != from(k)
    requires NoneTwice(x)
    ensures NoneTwice(y) && forall e | e in y :: e in x
  {
    forall j, k | 0 <= j < k < |y| ensures y[j].code != y[k].code {
      assert from(j) < from(k) || from(k) < from(j);
    }
  }

  /** The entries of the new lists are old ones, but for one that was activated. */
  ghost predicate Follows(s: Lists, s': Lists, op: Operation) {
    && NoneTwice(Together(s'))
    && forall e | e in Together(s') ::
         if op == SetActive(e.code) && !Has(s.active, e.code) then
           if Has(s.inactive, e.code) then
             exists o :: o in Together(s) && o.code == e.code && e.occurrences == Low8(o.occurrences as int + 1)
           else e.occurrences == 1
         else e in Together(s)
  }

  lemma MoveFollows(s: Lists, a: nat, op: Operation)
    requires NoneTwice(Together(s)) && a < |s.active| && !op.SetActive?
    ensures Follows(s, Lists(Without(s.active, a), s.inactive + [s.active[a]]), op)
  {
    var s' := Lists(Without(s.active, a), s.inactive + [s.active[a]]);
    var n := |Together(s)|;
    Rearranged(Together(s), Together(s'), j => if j < a then j else if j < n - 1 then j + 1 else a);
  }

  lemma EraseFollows(s: Lists, i: nat, op: Operation)
    requires NoneTwice(Together(s)) && i < |s.inactive| && !op.SetActive?
    ensures Follows(s, s.(inactive := Without(s.inactive, i)), op)
  {
    var at := |s.active| + i;
    Rearranged(Together(s), Together(s.(inactive := Without(s.inactive, i))), j => if j < at then j else j + 1);
  }

  lemma ClearFollows(s: Lists, op: Operation)
    requires NoneTwice(Together(s)) && !op.SetActive?
    ensures Follows(s, s, op) && Follows(s, Lists([], s.inactive + s.active), op) && Follows(s, s.(inactive := []), op)
  {
    var a, n := |s.active|, |s.inactive|;
    Rearranged(Together(s), Together(Lists([], s.inactive + s.active)), j => if j < n then a + j else j - n);
    Rearranged(Together(s), Together(s.(inactive := [])), j => j);
  }

  lemma ReactivateFollows(s: Lists, i: nat)
    requires NoneTwice(Together(s)) && i < |s.inactive| && !Has(s.active, s.inactive[i].code)
    ensures var e := Entry(s.inactive[i].code, Low8(s.inactive[i].occurrences as int + 1));
            Follows(s, Lists(s.active + [e], Without(s.inactive, i)), SetActive(e.code))
  {
    hide Follows;
    var o := s.inactive[i];
    var e := Entry(o.code, Low8(o.occurrences as int + 1));
    var a := |s.active|;
    var s' := Lists(s.active + [e], Without(s.inactive, i));
    var renamed := Together(s)[a + i := e];
    assert Together(s)[a + i] == o;
    Rearranged(renamed, Together(s'), j => if j < a then j else if j == a then a + i else if j - 1 < a + i then j - 1 else j);
    assert Together(s')[a] == e && o in Together(s);
    forall x | x in Together(s') ensures x == e || (x.code != e.code && x in Together(s)) {
      var k :| 0 <= k < |renamed| && renamed[k] == x;
      assert k != a + i ==> Together(s)[k] == x;
    }
    ReactivatedOne(s, s', e, o);
  }

  lemma ReactivatedOne(s: Lists, s': Lists, e: Entry, o: Entry)
    requires NoneTwice(Together(s')) && !Has(s.active, e.code) && Has(s.inactive, e.code)
    requires o in Together(s) && o.code == e.code && e.occurrences == Low8(o.occurrences as int + 1)
    requires forall x | x in Together(s') :: x == e || (x.code != e.code && x in Together(s))
    ensures Follows(s, s', SetActive(e.code))
  {
    hide Together, NoneTwice, Has;
  }

  lemma NewFollows(s: Lists, code: Code)
    requires NoneTwice(Together(s)) && !Known(s, code)
    ensures Follows(s, s.(active := s.active + [Entry(code, 1)]), SetActive(code))
  {
    var s' := s.(active := s.active + [Entry(code, 1)]);
    var a := |s.active|;
    forall j | 0 <= j < |Together(s')| && j != a
      ensures Together(s')[j] == Together(s)[if j < a then j else j - 1] && Together(s')[j].code != code
    {
      hide Follows, NoneTwice;
    }
  }

  lemma PerformFollows(s: Lists, op: Operation)
    requires NoneTwice(Together(s))
    ensures Follows(s, Perform(s, op).lists, op)
  {
    hide Follows, NoneTwice, Together;
    match op
    case SetActive(code) =>
      var a, i := Find(s.active, code, 0), Find(s.inactive, code, 0);
      if a < |s.active| {
        AlreadyFollows(s, code);
      } else if i < |s.inactive| {
        ReactivateFollows(s, i);
      } else {
        NewFollows(s, code);
      }
    case SetInactive(code) =>
      ClearFollows(s, op);
      if Find(s.active, code, 0) < |s.active| { MoveFollows(s, Find(s.active, code, 0), op); }
    case ClearActive => ClearFollows(s, op);
    case ClearInactive => ClearFollows(s, op);
    case RequestToClearActive(spn, fmi) =>
      ClearFollows(s, op);
      if FindMatch(s.active, spn, fmi, 0) < |s.active| { MoveFollows(s, FindMatch(s.active, spn, fmi, 0), op); }
    case RequestToClearInactive(spn, fmi) =>
      ClearFollows(s, op);
      if FindMatch(s.inactive, spn, fmi, 0) < |s.inactive| { EraseFollows(s, FindMatch(s.inactive, spn, fmi, 0), op); }
  }

  lemma AlreadyFollows(s: Lists, code: Code)
    requires NoneTwice(Together(s)) && Has(s.active, code)
    ensures Follows(s, s, SetActive(code))
  {
  }

  lemma KnownIsListed(s: Lists, code: Code)
    ensures Known(s, code) <==> exists e :: e in Together(s) && e.code == code
  {
    assert forall i | 0 <= i < |s.active| :: s.active[i] in Together(s);
    assert forall i | 0 <= i < |s.inactive| :: s.inactive[i] in Together(s);
  }

  lemma UnknownHasNone(ops: seq<Operation>, code: Code)
    requires !Known(Run(ops), code)
    ensures Activations(ops, code) == 0
  {
  }

  /** In every run no code is listed twice, and its count is the number of times it was
      activated since it was last erased, modulo 256. */
  lemma {:induction false} CountsAreActivations(ops: seq<Operation>)
    ensures NoneTwice(Together(Run(ops)))
    ensures forall e | e in Together(Run(ops)) :: e.occurrences == Activations(ops, e.code) % 0x100
    decreases |ops|
  {
    hide NoneTwice, Together, Perform, Known;
    if ops == [] {
      assert NoneTwice([]) by { NothingTwice(); }
      assert Together(Run(ops)) == [] by { NothingTwice(); }
    } else {
      var init, op := ops[..|ops| - 1], ops[|ops| - 1];
      CountsAreActivations(init);
      PerformFollows(Run(init), op);
      forall e | e in Together(Run(ops)) ensures e.occurrences == Activations(ops, e.code) % 0x100 {
        KnownIsListed(Run(ops), e.code);
        CountsStep(init, op, e);
      }
    }
  }

  lemma NothingTwice()
    ensures NoneTwice([]) && Together(Lists([], [])) == []
  {
  }

  lemma CountsStep(init: seq<Operation>, op: Operation, e: Entry)
    requires Follows(Run(init), Run(init + [op]), op) && e in Together(Run(init + [op])) && Known(Run(init + [op]), e.code)
    requires forall o | o in Together(Run(init)) :: o.occurrences == Activations(init, o.code) % 0x100
    ensures e.occurrences == Activations(init + [op], e.code) % 0x100
  {
    hide Run, Together, NoneTwice, Known, Has, Activations;
    var s := Run(init);
    ActivationsStep(init, op, e.code);
    if !Has(s.active, e.code) && !Has(s.inactive, e.code) {
      NotKnown(s, e.code);
      UnknownHasNone(init, e.code);
    }
    CountOf(s, Run(init + [op]), op, e, Activations(init, e.code));
  }

  lemma CountOf(s: Lists, s': Lists, op: Operation, e: Entry, before: nat)
    requires Follows(s, s', op) && e in Together(s')
    requires forall o | o in Together(s) && o.code == e.code :: o.occurrences == before % 0x100
    requires !Has(s.active, e.code) && !Has(s.inactive, e.code) ==> before == 0
    ensures e.occurrences == (before + if op == SetActive(e.code) && !Has(s.active, e.code) then 1 else 0) % 0x100
  {
    hide Together, NoneTwice, Has;
  }

  lemma ActivationsStep(init: seq<Operation>, op: Operation, code: Code)
    requires Known(Run(init + [op]), code)
    ensures Activations(init + [op], code)
            == Activations(init, code) + if op == SetActive(code) && !Has(Run(init).active, code) then 1 else 0
  {
    hide Perform, Known;
    assert (init + [op])[..|init|] == init;
  }

  lemma NotKnown(s: Lists, code: Code)
    requires !Has(s.active, code) && !Has(s.inactive, code)
    ensures !Known(s, code)
  {
  }

  // ---- requests over the bus ---------------------------------------------------------

  /** A request is acknowledged exactly when the list has a code it can mean, and the reason
      of a refusal says whether the other list has one. */
  lemma RepliesAreRight(s: Lists, spn: Spn, fmi: Fmi)
    ensures ClearOneActive(s, spn, fmi).reply ==
            if HasMatch(s.active, spn, fmi) then Ack else Nack(if HasMatch(s.inactive, spn, fmi) then NoLongerActive else Unknown)
    ensures ClearOneInactive(s, spn, fmi).reply ==
            if HasMatch(s.inactive, spn, fmi) then Ack
            else Nack(if HasMatch(s.active, spn, fmi) then NoLongerPreviouslyActive else Unknown)
  {
  }

  /** An acknowledged request leaves no such code in the list exactly when there was only one:
      codes that differ in their lamp alone are cleared one at a time. */
  lemma ClearsAllIffOne(s: Lists, spn: Spn, fmi: Fmi)
    requires HasMatch(s.active, spn, fmi)
    ensures var a := FindMatch(s.active, spn, fmi, 0);
            !HasMatch(ClearOneActive(s, spn, fmi).lists.active, spn, fmi) <==> FindMatch(s.active, spn, fmi, a + 1) == |s.active|
  {
    var a := FindMatch(s.active, spn, fmi, 0);
    var left := Without(s.active, a);
    assert forall j | 0 <= j < |left| :: left[j] == s.active[if j < a then j else j + 1];
    var b := FindMatch(s.active, spn, fmi, a + 1);
    if b < |s.active| {
      assert left[b - 1] == s.active[b];
    }
  }

  // ---- the protocol object -----------------------------------------------------------

  class DiagnosticProtocol {
    var activeList: seq<Entry>
    var inactiveList: seq<Entry>
    var responseQueue: seq<Reply>

    function Model(): Lists
      reads this
    {
      Lists(activeList, inactiveList)
    }

    constructor ()
      ensures Model() == Run([]) && responseQueue == []
    {
      activeList, inactiveList, responseQueue := [], [], [];
    }

    method IndexOf(list: seq<Entry>, code: Code) returns (i: nat)
      ensures i == Find(list, code, 0)
    {
      i := 0;
      while i < |list| && list[i].code != code
        invariant i <= |list| && Find(list, code, 0) == Find(list, code, i)
      {
        i := i + 1;
      }
    }

    method IndexOfMatch(list: seq<Entry>, spn: Spn, fmi: Fmi) returns (i: nat)
      ensures i == FindMatch(list, spn, fmi, 0)
    {
      i := 0;
      while i < |list| && !(list[i].code.spn == spn && list[i].code.fmi == fmi)
        invariant i <= |list| && FindMatch(list, spn, fmi, 0) == FindMatch(list, spn, fmi, i)
      {
        i := i + 1;
      }
    }

    method SetActive(code: Code, active: bool) returns (ok: bool)
      modifies this`activeList, this`inactiveList
      ensures Changed(Model(), ok, Nothing) == Perform(old(Model()), if active then Operation.SetActive(code) else SetInactive(code))
    {
      var a := IndexOf(activeList, code);
      var i := IndexOf(inactiveList, code);
      if active {
        ok := a == |activeList|;
        if ok {
          if i < |inactiveList| {
            inactiveList := inactiveList[i := inactiveList[i].(occurrences := Low8(inactiveList[i].occurrences as int + 1))];
            activeList := activeList + [inactiveList[i]];
            inactiveList := inactiveList[..i] + inactiveList[i + 1..];
          } else {
            activeList := activeList + [Entry(code, 0)];
            activeList := activeList[|activeList| - 1 := activeList[|activeList| - 1].(occurrences := 1)];
          }
        }
      } else {
        ok := i == |inactiveList|;
        if ok && a < |activeList| {
          inactiveList := inactiveList + [activeList[a]];
          activeList := activeList[..a] + activeList[a + 1..];
        }
      }
    }

    method ClearActive()
      modifies this`activeList, this`inactiveList
      ensures Model() == Perform(old(Model()), Operation.ClearActive).lists
    {
      inactiveList := inactiveList + activeList;
      activeList := [];
    }

    method ClearInactive()
      modifies this`inactiveList
      ensures Model() == Perform(old(Model()), Operation.ClearInactive).lists
    {
      inactiveList := [];
    }

    /** The two requests of diagnostic message 22; each queues one reply. */
    method ProcessRequest(clearActive: bool, spn: Spn, fmi: Fmi)
      modifies this
      ensures var c := Perform(old(Model()), if clearActive then RequestToClearActive(spn, fmi) else RequestToClearInactive(spn, fmi));
              Model() == c.lists && responseQueue == old(responseQueue) + [c.reply]
    {
      var a := IndexOfMatch(activeList, spn, fmi);
      var i := IndexOfMatch(inactiveList, spn, fmi);
      var reply := Ack;
      if clearActive {
        if a < |activeList| {
          inactiveList := inactiveList + [activeList[a]];
          activeList := activeList[..a] + activeList[a + 1..];
        } else {
          reply := Nack(if i < |inactiveList| then NoLongerActive else Unknown);
        }
      } else {
        if i < |inactiveList| {
          inactiveList := inactiveList[..i] + inactiveList[i + 1..];
        } else {
          reply := Nack(if a < |activeList| then NoLongerPreviouslyActive else Unknown);
        }
      }
      responseQueue := responseQueue + [reply];
    }
  }
}
