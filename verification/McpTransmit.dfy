/** The transmit side of the MCP2515 driver. The controller always sends the pending buffer
    with the highest priority, and of two with the same priority the one with the highest
    number (section 3.2 of the MCP2515 data sheet). By rotating the buffers and lowering or
    raising priorities the driver makes it a first-in first-out queue. */
module McpTransmit {
  import opened McpRegisters

  type Index = i: int | 0 <= i < 3
  type Priority = p: int | 0 <= p < 4

  datatype Slot = Slot(pending: bool, priority: Priority, frame: CanFrame)

  datatype Bus = Silent | Sending(i: Index)

  /** Three transmit buffers, the one being sent if any, and what has left on the bus. */
  datatype Chip = Chip(tx0: Slot, tx1: Slot, tx2: Slot, bus: Bus, sent: seq<CanFrame>) {
    function Get(i: Index): Slot { if i == 0 then tx0 else if i == 1 then tx1 else tx2 }

    function Set(i: Index, slot: Slot): Chip {
      if i == 0 then this.(tx0 := slot) else if i == 1 then this.(tx1 := slot) else this.(tx2 := slot)
    }

    predicate Before(i: Index, j: Index) {
      Get(i).priority > Get(j).priority || (Get(i).priority == Get(j).priority && i > j)
    }

    predicate AnyPending() { tx0.pending || tx1.pending || tx2.pending }

    /** The buffer the controller sends next. */
    function Highest(): (i: Index)
      requires AnyPending()
      ensures Get(i).pending
      ensures forall j: Index | j != i && Get(j).pending :: Before(i, j)
    {
      var i: Index := if tx2.pending && (tx1.pending ==> Before(2, 1)) then 2 else if tx1.pending then 1 else 0;
      if tx0.pending && i != 0 && Before(0, i) then 0 else i
    }
  }

  /** A transmission starts, ends, or is given up because another node won the arbitration. */
  datatype Event = Begin | Finish | LoseArbitration

  function OnEvent(chip: Chip, e: Event): Chip {
    match e
    case Begin => if chip.bus.Silent? && chip.AnyPending() then chip.(bus := Sending(chip.Highest())) else chip
    case Finish =>
      if chip.bus.Silent? then chip
      else
        var slot := chip.Get(chip.bus.i);
        chip.Set(chip.bus.i, slot.(pending := false)).(bus := Silent, sent := chip.sent + [slot.frame])
    case LoseArbitration => chip.(bus := Silent)
  }

  function OnEvents(chip: Chip, events: seq<Event>): Chip
    decreases |events|
  {
    if events == [] then chip
    else OnEvent(OnEvents(chip, events[..|events| - 1]), events[|events| - 1])
  }

  datatype Driver = Driver(index: Index, priority: Priority, chip: Chip)

  /** What happens on the bus before each SPI transaction of one attempt, and whether the three
      transactions that fill the buffer succeed. A failed one changes nothing. */
  datatype Round = Round(
    status: seq<Event>, raise1: seq<Event>, raise0: seq<Event>,
    check: seq<Event>, load: seq<Event>, request: seq<Event>,
    checkOk: bool, loadOk: bool, requestOk: bool)

  datatype Written = Written(chip: Chip, ok: bool)

  /** `write_frame` into one buffer: nothing is written to a buffer that is still pending. */
  function WriteSlot(chip: Chip, k: Index, priority: Priority, frame: CanFrame, r: Round): Written {
    var checked := OnEvents(chip, r.check);
    if !r.checkOk || checked.Get(k).pending then Written(checked, false)
    else
      var ready := OnEvents(checked, r.load);
      if !r.loadOk then Written(ready, false)
      else
        var loaded := OnEvents(ready.Set(k, ready.Get(k).(frame := frame)), r.request);
        if !r.requestOk then Written(loaded, false)
        else Written(loaded.Set(k, loaded.Get(k).(pending := true, priority := priority)), true)
  }

  function Next(i: Index): Index { if i == 0 then 2 else i - 1 }

  /** The other two buffers are raised to the highest priority, first the one written first. */
  function RaiseOthers(chip: Chip, r: Round): Chip {
    var c1 := OnEvents(chip, r.raise1);
    var c2 := OnEvents(c1.(tx1 := c1.tx1.(priority := 3)), r.raise0);
    c2.(tx0 := c2.tx0.(priority := 3))
  }

  datatype Prepared = Prepared(chip: Chip, priority: Priority)

  /** A frame for buffer 2, the preferred one, must not overtake those in the other buffers. */
  function Prepare(chip: Chip, index: Index, priority: Priority, r: Round): Prepared {
    if index != 2 || !(chip.tx1.pending || chip.tx0.pending) then Prepared(chip, priority)
    else if priority > 0 then Prepared(chip, priority - 1)
    else Prepared(RaiseOthers(chip, r), 2)
  }

  datatype Attempted = Attempted(driver: Driver, ok: bool)

  /** One pass through the loop of `write_frame`. */
  function Attempt(d: Driver, frame: CanFrame, r: Round): Attempted {
    var chip := OnEvents(d.chip, r.status);
    if chip.Get(d.index).pending then Attempted(d.(chip := chip), false)
    else
      var p := Prepare(chip, d.index, d.priority, r);
      var w := WriteSlot(p.chip, d.index, p.priority, frame, r);
      Attempted(Driver(if w.ok then Next(d.index) else d.index, p.priority, w.chip), w.ok)
  }

  const RETRIES := 100

  /** Nothing happens on the bus in rounds that are not given. */
  function RoundAt(rounds: seq<Round>, i: nat): Round {
    if i < |rounds| then rounds[i] else Round([], [], [], [], [], [], true, true, true)
  }

  /** `write_frame`, with so many retries left. */
  function Writing(d: Driver, frame: CanFrame, rounds: seq<Round>, retries: nat): Attempted
    requires retries <= RETRIES
    decreases retries
  {
    if retries == 0 then Attempted(d, false)
    else
      var a := Attempt(d, frame, RoundAt(rounds, RETRIES - retries));
      if a.ok then a else Writing(a.driver, frame, rounds, retries - 1)
  }

  // ---- the queue ---------------------------------------------------------------------

  function Pending(slot: Slot): seq<CanFrame> { if slot.pending then [slot.frame] else [] }

  /** Frames accepted but not yet sent, oldest first: the buffer to be written next was
      written longest ago. */
  function Queue(chip: Chip, index: Index): seq<CanFrame> {
    Pending(chip.Get(index)) + Pending(chip.Get(Next(index))) + Pending(chip.Get(Next(Next(index))))
  }

  function History(d: Driver): seq<CanFrame> { d.chip.sent + Queue(d.chip, d.index) }

  /** The pending buffers are the last written ones, and the controller prefers older ones. */
  predicate Ordered(chip: Chip, index: Index) {
    var a, b, c := index, Next(index), Next(Next(index));
    && (chip.Get(a).pending ==> chip.Get(b).pending && chip.Before(a, b))
    && (chip.Get(b).pending ==> chip.Get(c).pending && chip.Before(b, c))
    && (chip.bus.Sending? ==>
          && chip.Get(chip.bus.i).pending
          && (chip.Get(a).pending ==> chip.bus.i == a)
          && (!chip.Get(a).pending && chip.Get(b).pending ==> chip.bus.i == b))
  }

  predicate Inv(d: Driver) {
    var newest := d.chip.Get(Next(Next(d.index)));
    Ordered(d.chip, d.index) && (newest.pending ==> newest.priority >= d.priority)
  }

  /** The bus can only take frames away. */
  predicate Fewer(chip: Chip, before: Chip) {
    forall i: Index :: chip.Get(i) == before.Get(i) || chip.Get(i) == before.Get(i).(pending := false)
  }

  /** The buffer that was sent is the oldest one. */
  lemma FinishKeeps(chip: Chip, index: Index)
    requires Ordered(chip, index) && chip.bus.Sending?
    ensures var chip' := OnEvent(chip, Finish);
            Ordered(chip', index) && Fewer(chip', chip) && chip'.sent + Queue(chip', index) == chip.sent + Queue(chip, index)
  {
    assert chip.Get(chip.bus.i).pending;
    assert Queue(chip, index) == [chip.Get(chip.bus.i).frame] + Queue(OnEvent(chip, Finish), index);
  }

  lemma BeginKeeps(chip: Chip, index: Index)
    requires Ordered(chip, index)
    ensures var chip' := OnEvent(chip, Begin);
            Ordered(chip', index) && Fewer(chip', chip) && chip'.sent == chip.sent && Queue(chip', index) == Queue(chip, index)
  {
  }

  lemma EventKeeps(chip: Chip, index: Index, e: Event)
    requires Ordered(chip, index)
    ensures Ordered(OnEvent(chip, e), index) && Fewer(OnEvent(chip, e), chip)
    ensures OnEvent(chip, e).sent + Queue(OnEvent(chip, e), index) == chip.sent + Queue(chip, index)
  {
    if e.Finish? && chip.bus.Sending? {
      FinishKeeps(chip, index);
    } else if e.Begin? {
      BeginKeeps(chip, index);
    }
  }

  lemma {:induction false} EventsKeep(chip: Chip, index: Index, events: seq<Event>)
    requires Ordered(chip, index)
    ensures Ordered(OnEvents(chip, events), index) && Fewer(OnEvents(chip, events), chip)
    ensures OnEvents(chip, events).sent + Queue(OnEvents(chip, events), index) == chip.sent + Queue(chip, index)
    decreases |events|
  {
    hide Ordered, Queue, OnEvent;
    if events != [] {
      EventsKeep(chip, index, events[..|events| - 1]);
      EventKeeps(OnEvents(chip, events[..|events| - 1]), index, events[|events| - 1]);
    }
  }

  /** Every pending buffer goes before a buffer `k` written with this priority. */
  predicate GoesLast(chip: Chip, k: Index, priority: Priority) {
    forall j: Index | j != k && chip.Get(j).pending ::
      chip.Get(j).priority > priority || (chip.Get(j).priority == priority && j > k)
  }

  /** Every buffer but `k` is as before or has been sent. */
  predicate OthersFewer(chip: Chip, before: Chip, k: Index) {
    forall i: Index | i != k :: chip.Get(i) == before.Get(i) || chip.Get(i) == before.Get(i).(pending := false)
  }

  lemma LoadKeeps(chip: Chip, k: Index, frame: CanFrame)
    requires Ordered(chip, k) && !chip.Get(k).pending
    ensures var chip' := chip.Set(k, chip.Get(k).(frame := frame));
            Ordered(chip', k) && chip'.sent == chip.sent && Queue(chip', k) == Queue(chip, k) && OthersFewer(chip', chip, k)
            && chip'.Get(k).frame == frame && !chip'.Get(k).pending
  {
  }

  lemma RequestAppends(chip: Chip, k: Index, priority: Priority)
    requires Ordered(chip, k) && !chip.Get(k).pending && GoesLast(chip, k, priority)
    ensures var chip' := chip.Set(k, chip.Get(k).(pending := true, priority := priority));
            && Ordered(chip', Next(k)) && chip'.sent == chip.sent
            && Queue(chip', Next(k)) == Queue(chip, k) + [chip.Get(k).frame]
  {
  }

  lemma WriteSlotKeeps(chip: Chip, k: Index, priority: Priority, frame: CanFrame, r: Round)
    requires Ordered(chip, k) && GoesLast(chip, k, priority) && !chip.Get(k).pending
    ensures var w := WriteSlot(chip, k, priority, frame, r);
            var index := if w.ok then Next(k) else k;
            && Ordered(w.chip, index) && OthersFewer(w.chip, chip, k) && (w.ok ==> w.chip.Get(k).priority == priority)
            && w.chip.sent + Queue(w.chip, index) == chip.sent + Queue(chip, k) + (if w.ok then [frame] else [])
  {
    hide Ordered, Queue;
    EventsKeep(chip, k, r.check);
    var checked := OnEvents(chip, r.check);
    EventsKeep(checked, k, r.load);
    var ready := OnEvents(checked, r.load);
    LoadKeeps(ready, k, frame);
    var filled := ready.Set(k, ready.Get(k).(frame := frame));
    EventsKeep(filled, k, r.request);
    var loaded := OnEvents(filled, r.request);
    RequestAppends(loaded, k, priority);
    assert OthersFewer(loaded, chip, k);
  }

  lemma RaiseKeeps(chip: Chip, r: Round)
    requires Ordered(chip, 2) && !chip.tx2.pending
    ensures var c := RaiseOthers(chip, r);
            && Ordered(c, 2) && c.sent + Queue(c, 2) == chip.sent + Queue(chip, 2) && !c.tx2.pending
            && c.tx1.priority == c.tx0.priority == 3
  {
    EventsKeep(chip, 2, r.raise1);
    var c1 := OnEvents(chip, r.raise1);
    var c1' := c1.(tx1 := c1.tx1.(priority := 3));
    EventsKeep(c1', 2, r.raise0);
  }

  lemma PrepareKeeps(d: Driver, r: Round)
    requires Inv(d) && !d.chip.Get(d.index).pending
    ensures var p := Prepare(d.chip, d.index, d.priority, r);
            && Ordered(p.chip, d.index) && !p.chip.Get(d.index).pending && GoesLast(p.chip, d.index, p.priority)
            && p.chip.sent + Queue(p.chip, d.index) == History(d)
  {
    hide RaiseOthers;
    if d.index == 2 {
      RaiseKeeps(d.chip, r);
    }
  }

  lemma AttemptKeeps(d: Driver, frame: CanFrame, r: Round)
    requires Inv(d)
    ensures var a := Attempt(d, frame, r);
            Inv(a.driver) && History(a.driver) == History(d) + if a.ok then [frame] else []
  {
    hide OnEvents, WriteSlot, Prepare, Ordered, Queue;
    EventsKeep(d.chip, d.index, r.status);
    var seen := d.(chip := OnEvents(d.chip, r.status));
    if !seen.chip.Get(d.index).pending {
      PrepareKeeps(seen, r);
      var p := Prepare(seen.chip, d.index, d.priority, r);
      WriteSlotKeeps(p.chip, d.index, p.priority, frame, r);
    }
  }

  lemma {:induction false} WritingKeeps(d: Driver, frame: CanFrame, rounds: seq<Round>, retries: nat)
    requires Inv(d) && retries <= RETRIES
    ensures var a := Writing(d, frame, rounds, retries);
            Inv(a.driver) && History(a.driver) == History(d) + if a.ok then [frame] else []
    decreases retries
  {
    hide Inv, Attempt;
    if retries > 0 {
      var r := RoundAt(rounds, RETRIES - retries);
      AttemptKeeps(d, frame, r);
      if !Attempt(d, frame, r).ok {
        WritingKeeps(Attempt(d, frame, r).driver, frame, rounds, retries - 1);
      }
    }
  }

  predicate Works(r: Round) { r.checkOk && r.loadOk && r.requestOk }

  lemma AttemptSucceeds(d: Driver, frame: CanFrame, r: Round)
    requires Inv(d) && Works(r)
    ensures var a := Attempt(d, frame, r);
            a.ok <==> !OnEvents(d.chip, r.status).Get(d.index).pending
    ensures !Attempt(d, frame, r).ok ==> Attempt(d, frame, r).driver == d.(chip := OnEvents(d.chip, r.status))
  {
    hide Queue;
    EventsKeep(d.chip, d.index, r.status);
    var seen := d.(chip := OnEvents(d.chip, r.status));
    if !seen.chip.Get(d.index).pending {
      hide Ordered, OnEvents;
      PrepareKeeps(seen, r);
      EventsKeep(Prepare(seen.chip, d.index, d.priority, r).chip, d.index, r.check);
    }
  }

  /** While SPI transactions succeed, a frame is refused only when its buffer was still
      waiting to be sent at the last of a hundred looks at it. */
  lemma {:induction false} RefusedOnlyWhenFull(d: Driver, frame: CanFrame, rounds: seq<Round>, retries: nat)
    requires Inv(d) && 0 < retries <= RETRIES && (forall r | r in rounds :: Works(r))
    ensures var a := Writing(d, frame, rounds, retries);
            a.ok || (a.driver.chip.Get(d.index).pending && a.driver == d.(chip := a.driver.chip))
    decreases retries
  {
    hide Inv, Attempt;
    var r := RoundAt(rounds, RETRIES - retries);
    AttemptSucceeds(d, frame, r);
    AttemptKeeps(d, frame, r);
    if !Attempt(d, frame, r).ok && retries > 1 {
      RefusedOnlyWhenFull(Attempt(d, frame, r).driver, frame, rounds, retries - 1);
    }
  }

  /** A buffer that is still pending is left alone; any other is filled when the three accesses
      succeed. */
  lemma WrittenIff(chip: Chip, k: Index, priority: Priority, frame: CanFrame, r: Round)
    ensures var w := WriteSlot(chip, k, priority, frame, r);
            && (w.ok <==> Works(r) && !OnEvents(chip, r.check).Get(k).pending)
            && (OnEvents(chip, r.check).Get(k).pending ==> w.chip == OnEvents(chip, r.check))
            && (w.ok ==> w.chip.Get(k) == Slot(true, priority, w.chip.Get(k).frame))
  {
  }

  /** The other buffers are touched exactly when one of them waits and the priority, which falls by
      one for each frame written to buffer 2 meanwhile, cannot fall any further. */
  lemma RaisedIff(chip: Chip, index: Index, priority: Priority, r: Round)
    ensures var waits := index == 2 && (chip.tx0.pending || chip.tx1.pending);
            var p := Prepare(chip, index, priority, r);
            && (!(waits && priority == 0) ==> p.chip == chip && p.priority == priority - if waits then 1 else 0)
            && (waits && priority == 0 ==> p.chip == RaiseOthers(chip, r) && p.chip.tx0.priority == 3 && p.priority == 2)
  {
  }

  /** The controller at look number `n`, as long as nothing has been written. */
  function Looked(chip: Chip, rounds: seq<Round>, n: nat): Chip {
    if n == 0 then chip else OnEvents(Looked(chip, rounds, n - 1), RoundAt(rounds, n - 1).status)
  }

  predicate Free(d: Driver, rounds: seq<Round>, n: nat) { !Looked(d.chip, rounds, n).Get(d.index).pending }

  lemma AttemptIff(d: Driver, frame: CanFrame, r: Round)
    requires Inv(d) && Works(r)
    ensures var seen := OnEvents(d.chip, r.status);
            if seen.Get(d.index).pending then Attempt(d, frame, r) == Attempted(d.(chip := seen), false)
            else Attempt(d, frame, r).ok
  {
    hide Inv;
    AttemptSucceeds(d, frame, r);
  }

  lemma {:induction false} WritingIff(d: Driver, frame: CanFrame, rounds: seq<Round>, n: nat)
    requires n <= 100 && (forall r | r in rounds :: Works(r)) && Inv(d.(chip := Looked(d.chip, rounds, n)))
    ensures Writing(d.(chip := Looked(d.chip, rounds, n)), frame, rounds, 100 - n).ok
            <==> exists i: nat :: n < i <= 100 && Free(d, rounds, i)
    decreases 100 - n
  {
    hide Inv, Attempt;
    if n < 100 {
      var here, r := d.(chip := Looked(d.chip, rounds, n)), RoundAt(rounds, n);
      var seen := OnEvents(here.chip, r.status);
      assert Looked(d.chip, rounds, n + 1) == seen;
      AttemptIff(here, frame, r);
      if seen.Get(d.index).pending {
        assert !Free(d, rounds, n + 1);
        AttemptKeeps(here, frame, r);
        WritingIff(d, frame, rounds, n + 1);
        assert Writing(here, frame, rounds, 100 - n).ok == Writing(d.(chip := seen), frame, rounds, 100 - (n + 1)).ok;
      } else {
        assert Writing(here, frame, rounds, 100 - n).ok;
        assert Free(d, rounds, n + 1);
      }
    }
  }

  /** While SPI transactions succeed, a frame is accepted exactly when its buffer is free at one of
      the first hundred looks. */
  lemma {:induction false} AcceptedIff(d: Driver, frame: CanFrame, rounds: seq<Round>)
    requires Inv(d) && forall r | r in rounds :: Works(r)
    ensures Writing(d, frame, rounds, RETRIES).ok
            <==> exists i: nat :: 0 < i <= 100 && Free(d, rounds, i)
  {
    hide Inv, Writing, Looked;
    assert Looked(d.chip, rounds, 0) == d.chip by { NotLooked(d.chip, rounds); }
    WritingIff(d, frame, rounds, 0);
  }

  lemma NotLooked(chip: Chip, rounds: seq<Round>)
    ensures Looked(chip, rounds, 0) == chip
  {
  }

  // ---- whole runs --------------------------------------------------------------------

  datatype Call = Write(frame: CanFrame, rounds: seq<Round>) | Idle(events: seq<Event>)

  datatype Run = Run(driver: Driver, accepted: seq<CanFrame>)

  function OnCall(run: Run, call: Call): Run {
    match call
    case Write(frame, rounds) =>
      var a := Writing(run.driver, frame, rounds, RETRIES);
      Run(a.driver, run.accepted + if a.ok then [frame] else [])
    case Idle(events) => run.(driver := run.driver.(chip := OnEvents(run.driver.chip, events)))
  }

  function OnCalls(run: Run, calls: seq<Call>): Run
    decreases |calls|
  {
    if calls == [] then run else OnCall(OnCalls(run, calls[..|calls| - 1]), calls[|calls| - 1])
  }

  /** After `reset` nothing is pending; the contents of the buffers are arbitrary. */
  predicate Idles(chip: Chip) { !chip.AnyPending() && chip.bus.Silent? && chip.sent == [] }

  function Start(chip: Chip): Run { Run(Driver(2, 3, chip), []) }

  lemma {:induction false} CallsKeep(chip: Chip, calls: seq<Call>)
    requires Idles(chip)
    ensures Inv(OnCalls(Start(chip), calls).driver)
    ensures History(OnCalls(Start(chip), calls).driver) == OnCalls(Start(chip), calls).accepted
    decreases |calls|
  {
    hide Writing;
    if calls != [] {
      var init, call := calls[..|calls| - 1], calls[|calls| - 1];
      CallsKeep(chip, init);
      var run := OnCalls(Start(chip), init);
      match call
      case Write(frame, rounds) => WritingKeeps(run.driver, frame, rounds, RETRIES);
      case Idle(events) => EventsKeep(run.driver.chip, run.driver.index, events);
    }
  }

  /** However writes and transmissions interleave, frames leave in the order in which
      `write_frame` accepted them; what has not left yet is still pending. */
  lemma {:induction false} FirstInFirstOut(chip: Chip, calls: seq<Call>)
    requires Idles(chip)
    ensures var run := OnCalls(Start(chip), calls);
            && run.driver.chip.sent <= run.accepted
            && |run.accepted| <= |run.driver.chip.sent| + 3
            && (!run.driver.chip.AnyPending() ==> run.driver.chip.sent == run.accepted)
  {
    CallsKeep(chip, calls);
  }

  // ---- the driver object -------------------------------------------------------------

  /** The driver, together with the controller it talks to. */
  class McpDriver {
    var txIndex: Index
    var txPriority: Priority
    var chip: Chip

    function Model(): Driver
      reads this
    {
      Driver(txIndex, txPriority, chip)
    }

    ghost predicate Valid()
      reads this
    {
      Inv(Model())
    }

    constructor (chip: Chip)
      requires Idles(chip)
      ensures Valid() && Model() == Start(chip).driver && History(Model()) == []
    {
      txIndex, txPriority, this.chip := 2, 3, chip;
    }

    /** Clears the way, in an SPI transaction, for a frame that buffer 2 takes next. */
    method RaisePriority(k: Index, before: seq<Event>)
      modifies this`chip
      ensures chip == OnEvents(old(chip), before).Set(k, OnEvents(old(chip), before).Get(k).(priority := 3))
    {
      chip := OnEvents(chip, before);
      chip := chip.Set(k, chip.Get(k).(priority := 3));
    }

    method WriteBuffer(k: Index, frame: CanFrame, r: Round) returns (ok: bool)
      modifies this`chip
      ensures Written(chip, ok) == WriteSlot(old(chip), k, txPriority, frame, r)
    {
      ok := false;
      chip := OnEvents(chip, r.check);
      if r.checkOk && !chip.Get(k).pending {
        chip := OnEvents(chip, r.load);
        if r.loadOk {
          chip := chip.Set(k, chip.Get(k).(frame := frame));
          chip := OnEvents(chip, r.request);
          if r.requestOk {
            chip := chip.Set(k, chip.Get(k).(pending := true, priority := txPriority));
            ok := true;
          }
        }
      }
    }

    method TryOnce(frame: CanFrame, r: Round) returns (ok: bool)
      modifies this
      ensures Attempted(Model(), ok) == Attempt(old(Model()), frame, r)
    {
      ok := false;
      chip := OnEvents(chip, r.status);
      var status := chip;
      if !status.tx0.pending && txIndex == 0 {
        ok := WriteBuffer(0, frame, r);
        if ok {
          txIndex := 2;
        }
      } else if !status.tx1.pending && txIndex == 1 {
        ok := WriteBuffer(1, frame, r);
        if ok {
          txIndex := 0;
        }
      } else if !status.tx2.pending && txIndex == 2 {
        if status.tx1.pending || status.tx0.pending {
          if txPriority > 0 {
            txPriority := txPriority - 1;
          } else {
            txPriority := 2;
            RaisePriority(1, r.raise1);
            RaisePriority(0, r.raise0);
          }
        }
        ok := WriteBuffer(2, frame, r);
        if ok {
          txIndex := 1;
        }
      }
    }

    /** What has been sent and what waits, in this order, is what was accepted, in its order. */
    method WriteFrame(frame: CanFrame, rounds: seq<Round>) returns (ok: bool)
      requires Valid()
      modifies this
      ensures Valid()
      ensures Attempted(Model(), ok) == Writing(old(Model()), frame, rounds, RETRIES)
      ensures History(Model()) == old(History(Model())) + if ok then [frame] else []
    {
      hide Attempt, Inv, History;
      WritingKeeps(Model(), frame, rounds, RETRIES);
      var retries: nat := RETRIES;
      ok := false;
      ghost var goal := Writing(Model(), frame, rounds, RETRIES);
      while !ok && retries > 0
        invariant retries <= RETRIES
        invariant goal == if ok then Attempted(Model(), true) else Writing(Model(), frame, rounds, retries)
      {
        ok := TryOnce(frame, RoundAt(rounds, RETRIES - retries));
        retries := retries - 1;
      }
    }
  }
}
