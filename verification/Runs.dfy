/** Runs of a system that makes progress: as long as only allowed actions are taken, a bound
    falls with every effective one, and some action is always left until the system is done. */
module Runs {

  /** `calm` actions are those under discussion, `allowed` those that do no harm where they are
      taken. `lower(s, b)` says that less than `b` is left to do in state `s`. */
  datatype System<!S(!new), !A(!new)> = System(
    next: (S, A) -> S,
    calm: A -> bool,
    allowed: (S, A) -> bool,
    lower: (S, int) -> bool,
    done: S -> bool)

  function Run<S(!new), A(!new)>(sys: System<S, A>, s: S, actions: seq<A>): S
    decreases |actions|
  {
    if actions == [] then s
    else sys.next(Run(sys, s, actions[..|actions| - 1]), actions[|actions| - 1])
  }

  predicate Calm<S(!new), A(!new)>(sys: System<S, A>, actions: seq<A>) {
    forall i | 0 <= i < |actions| :: sys.calm(actions[i])
  }

  /** Every action is allowed where it is taken. */
  predicate Allowed<S(!new), A(!new)>(sys: System<S, A>, s: S, actions: seq<A>)
    decreases |actions|
  {
    actions != [] ==>
      && Allowed(sys, s, actions[..|actions| - 1])
      && sys.allowed(Run(sys, s, actions[..|actions| - 1]), actions[|actions| - 1])
  }

  /** How many steps of a run changed something. */
  ghost function Effective<S(!new), A(!new)>(sys: System<S, A>, s: S, actions: seq<A>): nat
    decreases |actions|
  {
    if actions == [] then 0
    else
      var init := actions[..|actions| - 1];
      Effective(sys, s, init) + if Run(sys, s, actions) != Run(sys, s, init) then 1 else 0
  }

  /** No calm action changes this state any more, and it is not the end. */
  ghost predicate Stuck<S(!new), A(!new)>(sys: System<S, A>, s: S) {
    !sys.done(s) && forall a | sys.calm(a) :: sys.next(s, a) == s
  }

  ghost predicate CanLower<S(!new), A(!new)>(sys: System<S, A>, s: S, b: int) {
    exists a :: sys.allowed(s, a) && sys.lower(sys.next(s, a), b - 1)
  }

  /** What has to be shown of the single steps of a system. */
  ghost predicate Progresses<S(!new), A(!new)>(sys: System<S, A>) {
    && (forall s, a | sys.allowed(s, a) :: sys.calm(a))
    && (forall s, b | sys.lower(s, b) :: b > 0)
    && (forall s, a, b | sys.lower(s, b) && sys.allowed(s, a) ::
          sys.lower(sys.next(s, a), if sys.next(s, a) == s then b else b - 1))
    && (forall s, b | sys.lower(s, b) :: sys.done(s) || CanLower(sys, s, b))
    && (forall s, a, b | sys.lower(s, b) && sys.calm(a) :: sys.allowed(s, a) || Stuck(sys, sys.next(s, a)))
  }

  /** Every effective step of an allowed run was paid for. */
  lemma {:induction false} RunIsPaid<S(!new), A(!new)>(sys: System<S, A>, s: S, actions: seq<A>, b: int)
    requires Progresses(sys) && sys.lower(s, b) && Allowed(sys, s, actions)
    ensures sys.lower(Run(sys, s, actions), b - Effective(sys, s, actions))
    ensures Effective(sys, s, actions) < b
    decreases |actions|
  {
    if actions != [] {
      RunIsPaid(sys, s, actions[..|actions| - 1], b);
    }
  }

  lemma OneMore<S(!new), A(!new)>(sys: System<S, A>, s: S, actions: seq<A>, a: A)
    ensures Run(sys, s, actions + [a]) == sys.next(Run(sys, s, actions), a)
    ensures Allowed(sys, s, actions + [a]) <==> Allowed(sys, s, actions) && sys.allowed(Run(sys, s, actions), a)
  {
    assert (actions + [a])[..|actions|] == actions;
  }

  /** An allowed run can be continued to the end. */
  lemma {:induction false} CanFinish<S(!new), A(!new)>(sys: System<S, A>, s: S, actions: seq<A>, b: nat) returns (more: seq<A>)
    requires Progresses(sys) && Allowed(sys, s, actions) && sys.lower(Run(sys, s, actions), b)
    ensures Allowed(sys, s, actions + more) && sys.done(Run(sys, s, actions + more))
    decreases b
  {
    var here := Run(sys, s, actions);
    if sys.done(here) {
      more := [];
      assert actions + [] == actions;
    } else {
      assert CanLower(sys, here, b);
      var a :| sys.allowed(here, a) && sys.lower(sys.next(here, a), b - 1);
      OneMore(sys, s, actions, a);
      var rest := CanFinish(sys, s, actions + [a], b - 1);
      more := [a] + rest;
      assert actions + more == actions + [a] + rest;
    }
  }

  lemma {:induction false} AllowedIsCalm<S(!new), A(!new)>(sys: System<S, A>, s: S, actions: seq<A>)
    requires Progresses(sys) && Allowed(sys, s, actions)
    ensures Calm(sys, actions)
    decreases |actions|
  {
    if actions != [] {
      AllowedIsCalm(sys, s, actions[..|actions| - 1]);
    }
  }

  lemma {:induction false} StuckStays<S(!new), A(!new)>(sys: System<S, A>, s: S, actions: seq<A>, more: seq<A>)
    requires Stuck(sys, Run(sys, s, actions)) && Calm(sys, more)
    ensures Run(sys, s, actions + more) == Run(sys, s, actions)
    decreases |more|
  {
    if more == [] {
      assert actions + more == actions;
    } else {
      var init, a := more[..|more| - 1], more[|more| - 1];
      StuckStays(sys, s, actions, init);
      assert actions + more == actions + init + [a];
      OneMore(sys, s, actions + init, a);
    }
  }

  /** A calm run was allowed all along, or it is stuck. */
  lemma {:induction false} AllowedOrStuck<S(!new), A(!new)>(sys: System<S, A>, s: S, actions: seq<A>, b: int)
    requires Progresses(sys) && sys.lower(s, b) && Calm(sys, actions)
    ensures Allowed(sys, s, actions) || Stuck(sys, Run(sys, s, actions))
    decreases |actions|
  {
    if actions != [] {
      var init, a := actions[..|actions| - 1], actions[|actions| - 1];
      AllowedOrStuck(sys, s, init, b);
      if Allowed(sys, s, init) {
        RunIsPaid(sys, s, init, b);
        assert sys.lower(Run(sys, s, init), b - Effective(sys, s, init)) && sys.calm(a);
      }
    }
  }

  ghost predicate Finishable<S(!new), A(!new)>(sys: System<S, A>, s: S, actions: seq<A>) {
    exists more :: Calm(sys, more) && sys.done(Run(sys, s, actions + more))
  }

  /** A calm run can still be finished exactly when each of its actions was allowed. */
  lemma {:induction false} FinishableIff<S(!new), A(!new)>(sys: System<S, A>, s: S, actions: seq<A>, b: int)
    requires Progresses(sys) && sys.lower(s, b) && Calm(sys, actions)
    ensures Allowed(sys, s, actions) <==> Finishable(sys, s, actions)
  {
    hide Progresses;
    if Allowed(sys, s, actions) {
      RunIsPaid(sys, s, actions, b);
      var more := CanFinish(sys, s, actions, b - Effective(sys, s, actions));
      AllowedIsCalm(sys, s, actions + more);
      assert forall i | 0 <= i < |more| :: more[i] == (actions + more)[|actions| + i];
      assert Calm(sys, more);
    } else if Finishable(sys, s, actions) {
      AllowedOrStuck(sys, s, actions, b);
      var more :| Calm(sys, more) && sys.done(Run(sys, s, actions + more));
      StuckStays(sys, s, actions, more);
    }
  }
}
