/** The receive side of the MCP2515 driver. A frame goes to buffer 0, or rolls over to buffer 1
    when buffer 0 is full. The driver returns frames in the order of arrival unless two frames
    arrive between the command that empties buffer 0 and the status read that follows it. */
module McpReceive {
  import opened McpRegisters

  /** A full buffer holds the number of the frame in it, counted from the first one stored. */
  datatype Slot = Empty | Full(number: nat)

  datatype Chip = Chip(rx0: Slot, rx1: Slot, stored: seq<CanFrame>, lost: nat)

  function Arrive(chip: Chip, f: CanFrame): Chip {
    if chip.rx0.Empty? then chip.(rx0 := Full(|chip.stored|), stored := chip.stored + [f])
    else if chip.rx1.Empty? then chip.(rx1 := Full(|chip.stored|), stored := chip.stored + [f])
    else chip.(lost := chip.lost + 1)
  }

  function Arrivals(chip: Chip, frames: seq<CanFrame>): Chip
    decreases |frames|
  {
    if frames == [] then chip else Arrive(Arrivals(chip, frames[..|frames| - 1]), frames[|frames| - 1])
  }

  type Index = i: int | 0 <= i < 2

  datatype Driver = Driver(index: Index, chip: Chip)

  /** The frames that arrive before each SPI transaction of one pass through the loop: the
      status read, the two register reads, the clearing of the flag, the second status read. */
  datatype Gaps = Gaps(status: seq<CanFrame>, control: seq<CanFrame>, data: seq<CanFrame>, clear: seq<CanFrame>, again: seq<CanFrame>)

  datatype Polled = Polled(driver: Driver, got: Slot)

  /** What the chip looks like when the flag of a buffer is cleared. */
  function UntilClear(chip: Chip, g: Gaps): Chip {
    Arrivals(Arrivals(Arrivals(chip, g.control), g.data), g.clear)
  }

  /** One pass through the loop of `read_frame`. */
  function Poll(d: Driver, g: Gaps): Polled {
    var chip := Arrivals(d.chip, g.status);
    if chip.rx0.Full? && d.index == 0 then
      var after := Arrivals(UntilClear(chip, g).(rx0 := Empty), g.again);
      Polled(Driver(if after.rx1.Full? then 1 else 0, after), chip.rx0)
    else if chip.rx1.Full? then Polled(Driver(0, UntilClear(chip, g).(rx1 := Empty)), chip.rx1)
    else Polled(d.(chip := chip), Empty)
  }

  /** `read_frame` polls until there is a frame or the interface is closed. */
  function Read(d: Driver, polls: seq<Gaps>): Polled
    decreases |polls|
  {
    if polls == [] then Polled(d, Empty)
    else
      var p := Poll(d, polls[0]);
      if p.got.Full? then p else Read(p.driver, polls[1..])
  }

  // ---- order -------------------------------------------------------------------------

  /** The buffer the driver reads first holds frame `next`, the other one the frame after it. */
  predicate Ordered(d: Driver, next: nat) {
    var (first, second) := if d.index == 0 then (d.chip.rx0, d.chip.rx1) else (d.chip.rx1, d.chip.rx0);
    && (d.index == 1 ==> first.Full?)
    && (second.Full? ==> first == Full(next) && second == Full(next + 1))
    && (first.Full? ==> first == Full(next))
    && |d.chip.stored| == next + (if first.Full? then 1 else 0) + (if second.Full? then 1 else 0)
  }

  /** The driver will read buffer 1 next although buffer 0 holds the older frame. */
  predicate Swapped(d: Driver, next: nat) {
    && d.index == 1 && d.chip.rx0 == Full(next) && d.chip.rx1 == Full(next + 1)
    && |d.chip.stored| == next + 2
  }

  /** Buffer 0 is read, buffer 1 is empty when buffer 0 is cleared, and two frames arrive
      before the driver looks at the status again. */
  predicate Overtaken(d: Driver, g: Gaps) {
    var chip := Arrivals(d.chip, g.status);
    && d.index == 0 && chip.rx0.Full?
    && UntilClear(chip, g).rx1.Empty? && |g.again| >= 2
  }

  lemma {:induction false} ArrivalsKeep(d: Driver, next: nat, frames: seq<CanFrame>)
    ensures var chip := Arrivals(d.chip, frames);
            && (Ordered(d, next) ==> Ordered(d.(chip := chip), next))
            && (d.chip.rx0.Full? ==> chip.rx0 == d.chip.rx0)
            && (d.chip.rx1.Full? ==> chip.rx1 == d.chip.rx1)
    decreases |frames|
  {
    if frames != [] {
      ArrivalsKeep(d, next, frames[..|frames| - 1]);
    }
  }

  /** Frames that find both buffers empty fill buffer 0 first, then buffer 1. */
  lemma {:induction false} ArrivalsFill(chip: Chip, frames: seq<CanFrame>)
    requires chip.rx0.Empty? && chip.rx1.Empty?
    ensures var after := Arrivals(chip, frames);
            && after.rx0 == (if |frames| >= 1 then Full(|chip.stored|) else Empty)
            && after.rx1 == (if |frames| >= 2 then Full(|chip.stored| + 1) else Empty)
            && |after.stored| == |chip.stored| + if |frames| >= 2 then 2 else |frames|
    decreases |frames|
  {
    if frames != [] {
      ArrivalsFill(chip, frames[..|frames| - 1]);
    }
  }

  lemma UntilClearKeeps(d: Driver, next: nat, g: Gaps)
    requires Ordered(d, next)
    ensures var chip := UntilClear(d.chip, g);
            && Ordered(d.(chip := chip), next)
            && (d.chip.rx0.Full? ==> chip.rx0 == d.chip.rx0)
            && (d.chip.rx1.Full? ==> chip.rx1 == d.chip.rx1)
  {
    hide Ordered;
    ArrivalsKeep(d, next, g.control);
    var c1 := Arrivals(d.chip, g.control);
    ArrivalsKeep(d.(chip := c1), next, g.data);
    ArrivalsKeep(d.(chip := Arrivals(c1, g.data)), next, g.clear);
  }

  lemma PollKeepsIff(d: Driver, next: nat, g: Gaps)
    requires Ordered(d, next)
    ensures var p := Poll(d, g);
            if p.got.Empty? then Ordered(p.driver, next)
            else
              && p.got == Full(next)
              && (Ordered(p.driver, next + 1) <==> !Overtaken(d, g))
              && (Overtaken(d, g) ==> Swapped(p.driver, next + 1))
  {
    ArrivalsKeep(d, next, g.status);
    var seen := d.(chip := Arrivals(d.chip, g.status));
    UntilClearKeeps(seen, next, g);
    if seen.chip.rx0.Full? && d.index == 0 {
      var cleared := UntilClear(seen.chip, g).(rx0 := Empty);
      if cleared.rx1.Empty? {
        ArrivalsFill(cleared, g.again);
      } else {
        ArrivalsKeep(Driver(1, cleared), next + 1, g.again);
      }
    }
  }

  // ---- whole runs --------------------------------------------------------------------

  /** The numbers of the frames handed out, in the order in which they were. */
  datatype Run = Run(driver: Driver, returned: seq<nat>)

  function OnPoll(run: Run, g: Gaps): Run {
    var p := Poll(run.driver, g);
    Run(p.driver, run.returned + if p.got.Full? then [p.got.number] else [])
  }

  function OnPolls(run: Run, polls: seq<Gaps>): Run
    decreases |polls|
  {
    if polls == [] then run else OnPoll(OnPolls(run, polls[..|polls| - 1]), polls[|polls| - 1])
  }

  function Start(): Run { Run(Driver(0, Chip(Empty, Empty, [], 0)), []) }

  predicate Calm(polls: seq<Gaps>)
    decreases |polls|
  {
    polls != [] ==>
      var init := polls[..|polls| - 1];
      Calm(init) && !Overtaken(OnPolls(Start(), init).driver, polls[|polls| - 1])
  }

  predicate InOrder(returned: seq<nat>) { forall i | 0 <= i < |returned| :: returned[i] == i }

  predicate Good(run: Run) { InOrder(run.returned) && Ordered(run.driver, |run.returned|) }

  /** Either the order is already broken for good, or it is about to be, or all is well. */
  predicate Settled(run: Run) {
    InOrder(run.returned) ==> Ordered(run.driver, |run.returned|) || Swapped(run.driver, |run.returned|)
  }

  lemma SwappedPoll(d: Driver, next: nat, g: Gaps)
    requires Swapped(d, next)
    ensures Poll(d, g).got == Full(next + 1)
  {
    ArrivalsKeep(d, next, g.status);
  }

  lemma PrefixInOrder(a: seq<nat>, b: seq<nat>)
    requires a <= b
    ensures InOrder(b) ==> InOrder(a)
  {
    assert forall i | 0 <= i < |a| :: a[i] == b[i];
  }

  lemma OnPollIff(run: Run, g: Gaps)
    requires Settled(run)
    ensures Settled(OnPoll(run, g))
    ensures Good(OnPoll(run, g)) <==> Good(run) && !Overtaken(run.driver, g)
  {
    hide Poll, Overtaken;
    var next := |run.returned|;
    var run' := OnPoll(run, g);
    PrefixInOrder(run.returned, run'.returned);
    if InOrder(run.returned) {
      if Ordered(run.driver, next) {
        PollKeepsIff(run.driver, next, g);
        EmptyIsCalm(run.driver, g);
      } else {
        SwappedPoll(run.driver, next, g);
        assert run'.returned[next] == next + 1;
      }
    }
  }

  lemma EmptyIsCalm(d: Driver, g: Gaps)
    ensures Overtaken(d, g) ==> Poll(d, g).got.Full?
  {
  }

  /** A run has returned frames in the order of arrival, and is going to, exactly when no
      frame was overtaken. */
  lemma {:induction false} InOrderIff(polls: seq<Gaps>)
    ensures Settled(OnPolls(Start(), polls))
    ensures Good(OnPolls(Start(), polls)) <==> Calm(polls)
    decreases |polls|
  {
    hide Good, Settled, Overtaken;
    if polls == [] {
      StartIsGood();
    } else {
      var init := polls[..|polls| - 1];
      InOrderIff(init);
      OnPollIff(OnPolls(Start(), init), polls[|polls| - 1]);
    }
  }

  lemma StartIsGood()
    ensures Good(Start()) && Settled(Start())
  {
  }

  /** First in, first out: what calm runs return is what was stored first. */
  lemma {:induction false} FirstInFirstOut(polls: seq<Gaps>)
    requires Calm(polls)
    ensures var run := OnPolls(Start(), polls);
            && |run.returned| <= |run.driver.chip.stored| <= |run.returned| + 2
            && forall i | 0 <= i < |run.returned| :: run.returned[i] == i
  {
    InOrderIff(polls);
  }

  /** Once a frame was overtaken, the order is wrong after the next poll at the latest. */
  lemma {:induction false} OvertakenIsReordered(polls: seq<Gaps>, g: Gaps)
    requires !Calm(polls)
    ensures !InOrder(OnPolls(Start(), polls + [g]).returned)
  {
    InOrderIff(polls);
    var run := OnPolls(Start(), polls);
    assert (polls + [g])[..|polls|] == polls;
    var run' := OnPoll(run, g);
    assert OnPolls(Start(), polls + [g]) == run';
    PrefixInOrder(run.returned, run'.returned);
    if InOrder(run.returned) {
      SwappedPoll(run.driver, |run.returned|, g);
      assert run'.returned[|run.returned|] == |run.returned| + 1;
    }
  }

  /** Three frames of which the second and the third arrive right after buffer 0 is emptied. */
  function Burst(a: CanFrame, b: CanFrame, c: CanFrame): seq<Gaps> {
    [Gaps([a], [], [], [], [b, c]), Gaps([], [], [], [], []), Gaps([], [], [], [], [])]
  }

  lemma BurstIsReordered(a: CanFrame, b: CanFrame, c: CanFrame)
    ensures OnPolls(Start(), Burst(a, b, c)).returned == [0, 2, 1]
  {
    var g0, g1 := Gaps([a], [], [], [], [b, c]), Gaps([], [], [], [], []);
    assert [g0, g1, g1][..2] == [g0, g1] && [g0, g1][..1] == [g0] && [g0][..0] == [];
    assert [a][..0] == [];
    ArrivalsFill(Start().driver.chip, [a]);
    var first := Arrivals(Start().driver.chip, [a]);
    ArrivalsFill(first.(rx0 := Empty), [b, c]);
    var r1 := OnPoll(Start(), g0);
    assert UntilClear(first, g0) == first;
    assert OnPolls(Start(), [g0]) == r1;
    assert r1.returned == [0] && r1.driver.index == 1 && r1.driver.chip.rx0 == Full(1) && r1.driver.chip.rx1 == Full(2);
    var r2 := OnPoll(r1, g1);
    assert OnPolls(Start(), [g0, g1]) == r2;
    assert r2.returned == [0, 2] && r2.driver.chip.rx0 == Full(1);
  }

  // ---- nothing is lost once it is stored ---------------------------------------------

  function Holds(slot: Slot, n: nat): nat { if slot == Full(n) then 1 else 0 }

  /** Every stored frame was handed out once or is still in one buffer. */
  ghost predicate Once(chip: Chip, returned: seq<nat>) {
    forall n: nat ::
      multiset(returned)[n] + Holds(chip.rx0, n) + Holds(chip.rx1, n) == if n < |chip.stored| then 1 else 0
  }

  /** Besides, buffer 1 is not waited for in vain. */
  ghost predicate Conserved(run: Run) {
    Once(run.driver.chip, run.returned) && (run.driver.index == 1 ==> run.driver.chip.rx1.Full?)
  }

  lemma {:induction false} ArrivalsConserve(chip: Chip, returned: seq<nat>, frames: seq<CanFrame>)
    requires Once(chip, returned)
    ensures var after := Arrivals(chip, frames);
            && Once(after, returned)
            && (chip.rx0.Full? ==> after.rx0 == chip.rx0)
            && (chip.rx1.Full? ==> after.rx1 == chip.rx1)
    decreases |frames|
  {
    if frames != [] {
      ArrivalsConserve(chip, returned, frames[..|frames| - 1]);
    }
  }

  lemma UntilClearConserves(chip: Chip, returned: seq<nat>, g: Gaps)
    requires Once(chip, returned)
    ensures var after := UntilClear(chip, g);
            && Once(after, returned)
            && (chip.rx0.Full? ==> after.rx0 == chip.rx0)
            && (chip.rx1.Full? ==> after.rx1 == chip.rx1)
  {
    hide Once;
    ArrivalsConserve(chip, returned, g.control);
    ArrivalsConserve(Arrivals(chip, g.control), returned, g.data);
    ArrivalsConserve(Arrivals(Arrivals(chip, g.control), g.data), returned, g.clear);
  }

  lemma ClearConserves(chip: Chip, returned: seq<nat>)
    requires Once(chip, returned)
    ensures chip.rx0.Full? ==> Once(chip.(rx0 := Empty), returned + [chip.rx0.number])
    ensures chip.rx1.Full? ==> Once(chip.(rx1 := Empty), returned + [chip.rx1.number])
  {
  }

  lemma OnPollConserves(run: Run, g: Gaps)
    requires Conserved(run)
    ensures Conserved(OnPoll(run, g))
    ensures var chip := Arrivals(run.driver.chip, g.status);
            Poll(run.driver, g).got.Empty? <==> chip.rx0.Empty? && chip.rx1.Empty?
  {
    hide Once, UntilClear;
    var r := run.returned;
    ArrivalsConserve(run.driver.chip, r, g.status);
    var seen := Arrivals(run.driver.chip, g.status);
    UntilClearConserves(seen, r, g);
    var chip := UntilClear(seen, g);
    ClearConserves(chip, r);
    if seen.rx0.Full? && run.driver.index == 0 {
      ArrivalsConserve(chip.(rx0 := Empty), r + [seen.rx0.number], g.again);
    }
    assert r + [] == r;
  }

  /** Even when the order is wrong, no stored frame is lost or returned twice, and a poll
      that finds a full buffer returns a frame. */
  lemma {:induction false} EveryFrameOnce(polls: seq<Gaps>)
    ensures Conserved(OnPolls(Start(), polls))
    decreases |polls|
  {
    hide Conserved, OnPoll;
    if polls == [] {
      StartConserves();
    } else {
      EveryFrameOnce(polls[..|polls| - 1]);
      OnPollConserves(OnPolls(Start(), polls[..|polls| - 1]), polls[|polls| - 1]);
    }
  }

  lemma StartConserves()
    ensures Conserved(Start())
  {
  }

  // ---- the driver object -------------------------------------------------------------

  /** The driver, together with the controller it talks to. */
  class McpReceiver {
    var rxIndex: Index
    var chip: Chip

    function Model(): Driver
      reads this
    {
      Driver(rxIndex, chip)
    }

    constructor ()
      ensures Model() == Start().driver
    {
      rxIndex, chip := 0, Chip(Empty, Empty, [], 0);
    }

    method PollOnce(g: Gaps) returns (got: Slot)
      modifies this
      ensures Polled(Model(), got) == Poll(old(Model()), g)
    {
      got := Empty;
      chip := Arrivals(chip, g.status);
      if chip.rx0.Full? && rxIndex == 0 {
        got := chip.rx0;
        chip := UntilClear(chip, g).(rx0 := Empty);
        chip := Arrivals(chip, g.again);
        if chip.rx1.Full? {
          rxIndex := 1;
        }
      } else if chip.rx1.Full? {
        got := chip.rx1;
        chip := UntilClear(chip, g).(rx1 := Empty);
        rxIndex := 0;
      }
    }

    /** Unless its frame is overtaken, a call returns the frame that arrived first. */
    method ReadFrame(polls: seq<Gaps>, ghost next: nat) returns (got: Slot)
      requires Ordered(Model(), next)
      modifies this
      ensures Polled(Model(), got) == Read(old(Model()), polls)
      ensures got.Full? ==> got == Full(next)
      ensures Ordered(Model(), if got.Full? then next + 1 else next) || Swapped(Model(), next + 1)
    {
      hide Poll, Ordered, Overtaken;
      got := Empty;
      var i := 0;
      while got.Empty? && i < |polls|
        invariant 0 <= i <= |polls|
        invariant Read(old(Model()), polls) == if got.Full? then Polled(Model(), got) else Read(Model(), polls[i..])
        invariant if got.Full? then got == Full(next) && (Ordered(Model(), next + 1) || Swapped(Model(), next + 1))
                  else Ordered(Model(), next)
      {
        PollKeepsIff(Model(), next, polls[i]);
        assert polls[i..][1..] == polls[i + 1..];
        got := PollOnce(polls[i]);
        i := i + 1;
      }
    }
  }
}
