/** Lists of sessions: erasing, appending, and what both keep. */
module SessionTable {

  function Erase<T>(s: seq<T>, k: nat): (r: seq<T>)
    requires k < |s|
    ensures |r| == |s| - 1
  {
    s[..k] + s[k + 1..]
  }

  ghost predicate Distinct<T>(s: seq<T>) {
    forall i, j | 0 <= i < j < |s| :: s[i] != s[j]
  }

  ghost predicate DistinctBy<T, K>(s: seq<T>, key: T -> K) {
    forall i, j | 0 <= i < j < |s| :: key(s[i]) != key(s[j])
  }

  function Count<T>(s: seq<T>, p: T -> bool): nat {
    if s == [] then 0 else Count(s[..|s| - 1], p) + if p(s[|s| - 1]) then 1 else 0
  }

  lemma {:induction false} CountErase<T>(s: seq<T>, p: T -> bool, k: nat)
    requires k < |s|
    ensures Count(Erase(s, k), p) == Count(s, p) - if p(s[k]) then 1 else 0
  {
    var n := |s| - 1;
    if k == n {
      assert Erase(s, k) == s[..n];
    } else {
      CountErase(s[..n], p, k);
      assert Erase(s, k)[..n - 1] == Erase(s[..n], k);
      assert Erase(s, k)[n - 1] == s[n];
    }
  }

  lemma {:induction false} CountBound<T>(s: seq<T>, p: T -> bool)
    ensures Count(s, p) <= |s|
  {
    if s != [] {
      CountBound(s[..|s| - 1], p);
    }
  }

  lemma EraseFacts<T, K>(s: seq<T>, key: T -> K, k: nat)
    requires Distinct(s) && DistinctBy(s, key) && k < |s|
    ensures Distinct(Erase(s, k)) && DistinctBy(Erase(s, k), key)
    ensures forall x :: x in Erase(s, k) <==> x in s && x != s[k]
  {
    var rest := Erase(s, k);
    forall i | 0 <= i < |rest| ensures rest[i] == s[if i < k then i else i + 1] {
    }
    forall x | x in s && x != s[k] ensures x in rest {
      var j :| 0 <= j < |s| && s[j] == x;
      assert rest[if j < k then j else j - 1] == x;
    }
  }

  /** Erasing an element that occurs once removes just that occurrence. */
  lemma EraseAt<T>(all: seq<T>, front: seq<T>, x: T, back: seq<T>, rest: seq<T>)
    requires all == front + [x] + back && Distinct(all)
    requires exists k :: 0 <= k < |all| && all[k] == x && rest == Erase(all, k)
    ensures rest == front + back
  {
    var k :| 0 <= k < |all| && all[k] == x && rest == Erase(all, k);
    assert all[|front|] == x;
    assert k == |front| by {
      Others(all, k);
    }
    assert all[..k] == front && all[k + 1..] == back;
  }

  lemma Others<T>(s: seq<T>, i: nat)
    requires Distinct(s) && i < |s|
    ensures forall k | 0 <= k < |s| && k != i :: s[k] != s[i]
  {
  }

  /** An element with a new key can be appended. */
  lemma Joins<T, K>(s: seq<T>, key: T -> K, p: T -> bool, x: T)
    requires Distinct(s) && DistinctBy(s, key) && forall y | y in s :: key(y) != key(x)
    ensures Distinct(s + [x]) && DistinctBy(s + [x], key)
    ensures Count(s + [x], p) == Count(s, p) + if p(x) then 1 else 0
  {
    var all := s + [x];
    assert all[..|s|] == s;
    forall i, j | 0 <= i < j < |all| ensures all[i] != all[j] && key(all[i]) != key(all[j]) {
      if j == |s| {
        assert all[i] in s;
      }
    }
  }

  lemma OnlyOne<T, K>(s: seq<T>, key: T -> K, x: T)
    requires DistinctBy(s, key) && x in s
    ensures forall y | y in s && key(y) == key(x) :: y == x
  {
  }

  // ---- one pass over a table ----------------------------------------------------------

  datatype Report = Silent | Told(success: bool)

  /** What a pass decides about one entry: whether it stays, the frames that went out, and
      what its owner is told. */
  datatype Verdict<F> = Verdict(stays: bool, sent: seq<F>, report: Report)

  /** What a pass did: the entries that stay, the frames in the order in which they went
      out, and who was told which result. */
  datatype Effects<T, F> = Effects(kept: seq<T>, sent: seq<F>, told: seq<T>, results: seq<bool>)

  function Note<T, F>(e: Effects<T, F>, kept: seq<T>, x: T, v: Verdict<F>): Effects<T, F> {
    Effects(kept, e.sent + v.sent,
            e.told + if v.report.Told? then [x] else [],
            e.results + if v.report.Told? then [v.report.success] else [])
  }

  function Stays<T, F>(x: T, v: Verdict<F>): seq<T> { if v.stays then [x] else [] }

  /** A pass over the first `n` entries, from the first on. */
  function Forwards<T, F>(all: seq<T>, verdicts: seq<Verdict<F>>, n: nat): Effects<T, F>
    requires |all| == |verdicts| >= n
  {
    if n == 0 then Effects([], [], [], [])
    else
      var e := Forwards(all, verdicts, n - 1);
      Note(e, e.kept + Stays(all[n - 1], verdicts[n - 1]), all[n - 1], verdicts[n - 1])
  }

  lemma ForwardsBegins<T, F>(all: seq<T>, verdicts: seq<Verdict<F>>)
    requires |all| == |verdicts|
    ensures Forwards(all, verdicts, 0) == Effects([], [], [], [])
  {
  }

  lemma ForwardsNext<T, F>(all: seq<T>, verdicts: seq<Verdict<F>>, n: nat)
    requires |all| == |verdicts| > n
    ensures var e := Forwards(all, verdicts, n);
            Forwards(all, verdicts, n + 1) == Note(e, e.kept + Stays(all[n], verdicts[n]), all[n], verdicts[n])
  {
  }

  /** A pass over the entries from `n` on, from the last one back. */
  function Backwards<T, F>(all: seq<T>, verdicts: seq<Verdict<F>>, n: nat): Effects<T, F>
    requires |all| == |verdicts| >= n
    decreases |all| - n
  {
    if n == |all| then Effects([], [], [], [])
    else
      var e := Backwards(all, verdicts, n + 1);
      Note(e, Stays(all[n], verdicts[n]) + e.kept, all[n], verdicts[n])
  }

  lemma BackwardsBegins<T, F>(all: seq<T>, verdicts: seq<Verdict<F>>)
    requires |all| == |verdicts|
    ensures Backwards(all, verdicts, |all|) == Effects([], [], [], [])
  {
  }

  lemma BackwardsNext<T, F>(all: seq<T>, verdicts: seq<Verdict<F>>, n: nat)
    requires |all| == |verdicts| > n
    ensures var e := Backwards(all, verdicts, n + 1);
            Backwards(all, verdicts, n) == Note(e, Stays(all[n], verdicts[n]) + e.kept, all[n], verdicts[n])
  {
  }

  ghost predicate Heard<T, F>(e: Effects<T, F>, x: T, success: bool) {
    exists j :: 0 <= j < |e.told| && j < |e.results| && e.told[j] == x && e.results[j] == success
  }

  ghost predicate Staying<T, F>(all: seq<T>, verdicts: seq<Verdict<F>>, low: nat, high: nat, x: T)
    requires low <= high <= |all| == |verdicts|
  {
    exists k :: low <= k < high && all[k] == x && verdicts[k].stays
  }

  ghost predicate Owed<T, F>(all: seq<T>, verdicts: seq<Verdict<F>>, low: nat, high: nat, x: T, success: bool)
    requires low <= high <= |all| == |verdicts|
  {
    exists k :: low <= k < high && all[k] == x && verdicts[k].report == Told(success)
  }

  /** The entries of `all` from `low` to `high` stay or leave, and their owners are told, as decided. */
  ghost predicate AsDecided<T, F>(e: Effects<T, F>, all: seq<T>, verdicts: seq<Verdict<F>>, low: nat, high: nat)
    requires low <= high <= |all| == |verdicts|
  {
    && (forall x | x in e.kept :: Staying(all, verdicts, low, high, x))
    && (forall k | low <= k < high && verdicts[k].stays :: all[k] in e.kept)
    && |e.told| == |e.results|
    && (forall j | 0 <= j < |e.told| :: Owed(all, verdicts, low, high, e.told[j], e.results[j]))
    && (forall k | low <= k < high && verdicts[k].report.Told? :: Heard(e, all[k], verdicts[k].report.success))
  }

  lemma NothingDecided<T, F>(all: seq<T>, verdicts: seq<Verdict<F>>, n: nat)
    requires |all| == |verdicts| >= n
    ensures AsDecided(Effects([], [], [], []), all, verdicts, n, n)
  {
  }

  lemma {:induction false} ForwardsAsDecided<T, F>(all: seq<T>, verdicts: seq<Verdict<F>>, n: nat)
    requires |all| == |verdicts| >= n
    ensures AsDecided(Forwards(all, verdicts, n), all, verdicts, 0, n)
  {
    hide AsDecided, Note, Stays, Forwards;
    if n == 0 {
      ForwardsBegins(all, verdicts);
      NothingDecided(all, verdicts, 0);
    } else {
      ForwardsNext(all, verdicts, n - 1);
      ForwardsAsDecided(all, verdicts, n - 1);
      var e := Forwards(all, verdicts, n - 1);
      NoteAsDecided(e, e.kept + Stays(all[n - 1], verdicts[n - 1]), all, verdicts, 0, n - 1, 0, n, n - 1);
    }
  }

  lemma {:induction false} BackwardsAsDecided<T, F>(all: seq<T>, verdicts: seq<Verdict<F>>, n: nat)
    requires |all| == |verdicts| >= n
    ensures AsDecided(Backwards(all, verdicts, n), all, verdicts, n, |all|)
    decreases |all| - n
  {
    if n == |all| {
      NothingDecided(all, verdicts, n);
    } else {
      hide AsDecided, Note, Stays;
      BackwardsAsDecided(all, verdicts, n + 1);
      var e := Backwards(all, verdicts, n + 1);
      NoteAsDecided(e, Stays(all[n], verdicts[n]) + e.kept, all, verdicts, n + 1, |all|, n, |all|, n);
    }
  }

  /** One more entry at either end. */
  lemma NoteAsDecided<T, F>(e: Effects<T, F>, kept: seq<T>, all: seq<T>, verdicts: seq<Verdict<F>>,
                            low: nat, high: nat, newLow: nat, newHigh: nat, at: nat)
    requires newLow <= low <= high <= newHigh <= |all| == |verdicts| && AsDecided(e, all, verdicts, low, high)
    requires (newLow == low && newHigh == high + 1 && at == high) || (newLow == low - 1 && newHigh == high && at == newLow)
    requires kept == e.kept + Stays(all[at], verdicts[at]) || kept == Stays(all[at], verdicts[at]) + e.kept
    ensures AsDecided(Note(e, kept, all[at], verdicts[at]), all, verdicts, newLow, newHigh)
  {
    var after := Note(e, kept, all[at], verdicts[at]);
    forall k | newLow <= k < newHigh && verdicts[k].report.Told?
      ensures Heard(after, all[k], verdicts[k].report.success)
    {
      if k == at {
        assert after.told[|e.told|] == all[k];
      } else {
        HeardStill(e, after, all[k], verdicts[k].report.success);
      }
    }
    forall x | x in after.kept ensures Staying(all, verdicts, newLow, newHigh, x) {
      if x in e.kept {
        assert Staying(all, verdicts, low, high, x);
      } else {
        assert all[at] == x;
      }
    }
    forall j | 0 <= j < |after.told| ensures Owed(all, verdicts, newLow, newHigh, after.told[j], after.results[j]) {
      if j < |e.told| {
        assert Owed(all, verdicts, low, high, e.told[j], e.results[j]);
      } else {
        assert all[at] == after.told[j];
      }
    }
    forall k | newLow <= k < newHigh && verdicts[k].stays ensures all[k] in after.kept {
      assert k == at ==> all[at] in Stays(all[at], verdicts[at]);
    }
  }

  lemma HeardStill<T, F>(e: Effects<T, F>, after: Effects<T, F>, x: T, success: bool)
    requires Heard(e, x, success) && e.told <= after.told && e.results <= after.results
    ensures Heard(after, x, success)
  {
    var j :| 0 <= j < |e.told| && j < |e.results| && e.told[j] == x && e.results[j] == success;
    assert after.told[j] == x;
  }

  /** The frames of these verdicts, one verdict after the other. */
  function Frames<F>(verdicts: seq<Verdict<F>>): seq<F> {
    if verdicts == [] then [] else verdicts[0].sent + Frames(verdicts[1..])
  }

  lemma {:induction false} FramesAppend<F>(verdicts: seq<Verdict<F>>, v: Verdict<F>)
    ensures Frames(verdicts + [v]) == Frames(verdicts) + v.sent
  {
    if verdicts == [] {
      assert [v][1..] == [] && v.sent + [] == v.sent;
    } else {
      assert (verdicts + [v])[1..] == verdicts[1..] + [v];
      FramesAppend(verdicts[1..], v);
    }
  }

  function Reverse<T>(s: seq<T>): seq<T> { seq(|s|, i requires 0 <= i < |s| => s[|s| - 1 - i]) }

  /** A pass sends in the order in which it meets the entries. */
  lemma {:induction false} ForwardsSends<T, F>(all: seq<T>, verdicts: seq<Verdict<F>>, n: nat)
    requires |all| == |verdicts| >= n
    ensures Forwards(all, verdicts, n).sent == Frames(verdicts[..n])
  {
    if n > 0 {
      ForwardsSends(all, verdicts, n - 1);
      assert verdicts[..n] == verdicts[..n - 1] + [verdicts[n - 1]];
      FramesAppend(verdicts[..n - 1], verdicts[n - 1]);
    }
  }

  lemma {:induction false} BackwardsSends<T, F>(all: seq<T>, verdicts: seq<Verdict<F>>, n: nat)
    requires |all| == |verdicts| >= n
    ensures Backwards(all, verdicts, n).sent == Frames(Reverse(verdicts[n..]))
    decreases |all| - n
  {
    if n < |all| {
      BackwardsSends(all, verdicts, n + 1);
      assert Reverse(verdicts[n..]) == Reverse(verdicts[n + 1..]) + [verdicts[n]];
      FramesAppend(Reverse(verdicts[n + 1..]), verdicts[n]);
    }
  }

  /** Both passes leave the same table: the order of the entries does not depend on the order in
      which they are met. */
  lemma {:induction false} SameTable<T, F>(all: seq<T>, verdicts: seq<Verdict<F>>, n: nat)
    requires |all| == |verdicts| >= n
    ensures Forwards(all, verdicts, n).kept + Backwards(all, verdicts, n).kept == Backwards(all, verdicts, 0).kept
  {
    if n == 0 {
      assert [] + Backwards(all, verdicts, 0).kept == Backwards(all, verdicts, 0).kept;
    } else {
      SameTable(all, verdicts, n - 1);
      var front, back := Forwards(all, verdicts, n - 1).kept, Backwards(all, verdicts, n).kept;
      var x := Stays(all[n - 1], verdicts[n - 1]);
      assert front + (x + back) == front + x + back;
    }
  }

  /** What stays, stays in its order: the places it came from rise. */
  lemma {:induction false} ForwardsKeepsOrder<T, F>(all: seq<T>, verdicts: seq<Verdict<F>>, n: nat) returns (at: seq<int>)
    requires |all| == |verdicts| >= n
    ensures var kept := Forwards(all, verdicts, n).kept;
            && |at| == |kept| && (forall i | 0 <= i < |at| :: 0 <= at[i] < n && kept[i] == all[at[i]])
            && (forall i, j | 0 <= i < j < |at| :: at[i] < at[j])
  {
    at := [];
    if n > 0 {
      at := ForwardsKeepsOrder(all, verdicts, n - 1);
      if verdicts[n - 1].stays {
        at := at + [n - 1];
      }
    }
  }
}
