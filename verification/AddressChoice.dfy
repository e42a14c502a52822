/** Which address a node claims, and what it then knows about the others. */
module AddressChoice {
  import opened Widths
  import opened AddressClaim

  // ---- the choice of an address ------------------------------------------------------

  /** The preferred address is free, or recorded for a node with a larger NAME. */
  predicate PreferredIsOpen(n: Node) {
    n.preferred.Holds? && (n.preferred.a in n.table ==> n.table[n.preferred.a] > n.name)
  }

  /** The addresses a node may take arbitrarily: from 128 on, as far as its industry goes. */
  predicate InRange(group: IndustryGroup, a: Address) {
    && 128 <= a && (group == Global ==> a <= 247) && (group == OnHighway ==> a <= 158) && (group == Agricultural ==> a <= 235)
    && (group == Construction || group == Marine || group == Industrial ==> a <= 207) && (group == Reserved ==> a <= 128)
  }

  /** The lowest free address of the range. */
  ghost predicate IsLowestFree(n: Node, a: Address) {
    InRange(n.group, a) && a !in n.table && forall b: Address | InRange(n.group, b) && b < a :: b in n.table
  }

  predicate Claims(u: Stepped, a: Address) {
    u.sent == Claim(a) && u.node.holding == Holds(a) && u.node.state == AddressClaimingComplete
  }

  /** The two updates after the contention period, when nothing happens in between. */
  function Chosen(n: Node, first: seq<bool>, expired: bool, second: seq<bool>): Stepped {
    Update(Update(n, true, first).node, expired, second)
  }

  /** After the contention period a node claims its preferred address if and only if that is
      open. Otherwise it claims the lowest free address if it may take any and there is one.
      In all other cases it announces that it cannot claim, and stops. */
  lemma ChoiceIff(n: Node, first: seq<bool>, expired: bool, second: seq<bool>)
    requires n.state == WaitForRequestContentionPeriod && Accepts(second, 0)
    ensures var u := Chosen(n, first, expired, second);
            && (PreferredIsOpen(n) <==> n.preferred.Holds? && Claims(u, n.preferred.a))
            && (forall a | !PreferredIsOpen(n) :: Claims(u, a) <==> n.arbitraryCapable && IsLowestFree(n, a))
            && (forall a | Claims(u, a) :: u.node.preferred == if n.preferred.Nothing? then Holds(a) else n.preferred)
            && ((forall a :: !Claims(u, a)) ==>
                  && (Update(n, true, first).sent == CannotClaim || u.sent == CannotClaim)
                  && u.node == n.(state := UnableToClaim))
  {
    hide TakePlace, Search;
    var m := Update(n, true, first).node;
    assert m == n.(state := m.state);
    if PreferredIsOpen(n) {
      PlaceKeepsSelf(m, m.preferred.a);
    } else if n.arbitraryCapable {
      SearchFindsLowest(m, ARBITRATION_STARTING_ADDRESS, 0, second);
      var h := Search(m, ARBITRATION_STARTING_ADDRESS, 0, second);
      if h.Holds? {
        PlaceKeepsSelf(m, h.a);
        PlaceKeepsSelf(m.(preferred := h), h.a);
        assert Claims(Chosen(n, first, expired, second), h.a);
        assert IsLowestFree(n, h.a);
        LowestIsOne(n, h.a);
      }
    }
  }

  lemma PlaceKeepsSelf(n: Node, a: Address)
    ensures var u := Claiming(n, a).node;
            u.holding == Holds(a) && u.state == AddressClaimingComplete && u.preferred == n.preferred
  {
  }

  lemma LowestIsOne(n: Node, a: Address)
    requires IsLowestFree(n, a)
    ensures forall b :: IsLowestFree(n, b) ==> b == a
  {
  }

  // ---- claiming comes last -----------------------------------------------------------

  datatype Event =
    | Updated(expired: bool, answers: seq<bool>)
    | Claimed(other: Name, a: Address)
    | Requested
    | Pruned(a: Address)

  function Happens(n: Node, e: Event): Node {
    match e
    case Updated(expired, answers) => Update(n, expired, answers).node
    case Claimed(other, a) => if other == n.name then n else OnClaim(n, other, a)
    case Requested => OnRequest(n)
    case Pruned(a) => Prune(n, a)
  }

  function After(n: Node, events: seq<Event>): Node
    decreases |events|
  {
    if events == [] then n else Happens(After(n, events[..|events| - 1]), events[|events| - 1])
  }

  /** What the node sends at event `k`. */
  function SentAt(n: Node, events: seq<Event>, k: nat): Sent
    requires k < |events|
  {
    match events[k]
    case Updated(expired, answers) => Update(After(n, events[..k]), expired, answers).sent
    case _ => Silence
  }

  /** The network was asked for claims, and after that a contention period passed. */
  ghost predicate HasAsked(n: Node, events: seq<Event>) { exists i :: 0 <= i < |events| && SentAt(n, events, i) == Request }

  ghost predicate HasWaited(n: Node, events: seq<Event>) {
    exists i, j :: 0 <= i < j < |events| && SentAt(n, events, i) == Request && events[j].Updated? && events[j].expired
  }

  predicate Early(s: State) { s == Restart || s == WaitForClaim || s == SendRequestForClaim }

  lemma AskedStays(n: Node, events: seq<Event>, e: Event)
    ensures HasAsked(n, events) ==> HasAsked(n, events + [e])
    ensures HasWaited(n, events) ==> HasWaited(n, events + [e])
  {
    var all := events + [e];
    forall k | 0 <= k < |events| ensures SentAt(n, all, k) == SentAt(n, events, k) && all[k] == events[k] {
      assert all[..k] == events[..k];
    }
  }

  lemma HappensState(n: Node, e: Event)
    ensures var s := Happens(n, e).state;
            && (Early(n.state) && !Early(s) ==> e.Updated? && Update(n, e.expired, e.answers).sent == Request
                                                && s == WaitForRequestContentionPeriod)
            && (n.state == WaitForRequestContentionPeriod && s != n.state ==> e.Updated? && e.expired)
  {
    hide TakePlace, Search, Contend, EvictInactive, Record, UpdateAddressTable;
    if e.Claimed? && e.other != n.name {
      OnClaimSelf(n, e.other, e.a);
      ContendSelf(n, e.other, e.a);
      EvictInactiveSelf(Contend(n, e.other, e.a), e.other, e.a);
    }
  }

  lemma {:induction false} StatesAfterAsking(n: Node, events: seq<Event>)
    requires n.state == Restart
    ensures !Early(After(n, events).state) ==> HasAsked(n, events)
    ensures !Early(After(n, events).state) && After(n, events).state != WaitForRequestContentionPeriod ==> HasWaited(n, events)
    decreases |events|
  {
    if events != [] {
      hide Happens, HasAsked, HasWaited;
      var init, e := events[..|events| - 1], events[|events| - 1];
      assert events == init + [e];
      StatesAfterAsking(n, init);
      AskedStays(n, init, e);
      HappensState(After(n, init), e);
      NowAsked(n, init, e);
    }
  }

  lemma NowAsked(n: Node, events: seq<Event>, e: Event)
    ensures e.Updated? && Update(After(n, events), e.expired, e.answers).sent == Request ==> HasAsked(n, events + [e])
    ensures HasAsked(n, events) && e.Updated? && e.expired ==> HasWaited(n, events + [e])
  {
    var all := events + [e];
    assert all[..|events|] == events;
    forall k | 0 <= k < |events| ensures SentAt(n, all, k) == SentAt(n, events, k) && all[k] == events[k] {
      assert all[..k] == events[..k];
    }
    if HasAsked(n, events) && e.Updated? && e.expired {
      var i :| 0 <= i < |events| && SentAt(n, events, i) == Request;
      assert SentAt(n, all, i) == Request && all[|events|] == e;
    }
    if e.Updated? && Update(After(n, events), e.expired, e.answers).sent == Request {
      assert SentAt(n, all, |events|) == Request;
    }
  }

  /** In every run a node claims an address, or gives up, only after it has asked all others for
      their claims and has waited for the answers. */
  lemma {:induction false} ClaimsComeLast(n: Node, events: seq<Event>, k: nat)
    requires n.state == Restart && k < |events|
    requires SentAt(n, events, k).Claim? || SentAt(n, events, k).CannotClaim?
    ensures HasWaited(n, events[..k + 1])
  {
    hide TakePlace, Search, HasWaited, HasAsked;
    var init, e := events[..k], events[k];
    assert events[..k + 1] == init + [e];
    StatesAfterAsking(n, init);
    AskedStays(n, init, e);
    NowAsked(n, init, e);
  }

  /** With an accepting bus a node is done, or unable, within five updates: it waits, asks, waits
      for the answers and chooses. */
  lemma FirstClaim(n: Node, answers: seq<bool>)
    requires n.state == Restart && Accepts(answers, 0)
    ensures var asks := Update(Update(Update(n, true, answers).node, true, answers).node, true, answers);
            && asks.sent == Request
            && asks.node == n.(state := WaitForRequestContentionPeriod)
            && Chosen(asks.node, answers, true, answers).node.state in {AddressClaimingComplete, UnableToClaim}
  {
    hide Search, TakePlace;
    var m := n.(state := WaitForRequestContentionPeriod);
    ChoiceIff(m, answers, true, answers);
    var u := Chosen(m, answers, true, answers);
    if a :| Claims(u, a) {
      assert u.node.state == AddressClaimingComplete;
    }
  }

  /** A node does nothing before its delay, or the time others have to answer, is over. */
  lemma NothingBeforeTime(n: Node, answers: seq<bool>)
    requires n.state == WaitForClaim || n.state == WaitForRequestContentionPeriod
    ensures Update(n, false, answers) == Stepped(n, Silence)
    ensures Update(n, true, answers).node.state != n.state
  {
    hide Search;
  }

  /** A refused frame is tried again: a request at once, a claim from the beginning. */
  lemma RefusalIsRepeated(n: Node, expired: bool, answers: seq<bool>)
    requires !Accepts(answers, 0)
    ensures var u := Update(n, expired, answers);
            && (n.state == SendRequestForClaim || n.state == SendReclaimAddressOnRequest ==> u == Stepped(n, Silence))
            && (n.state == SendPreferredAddressClaim || n.state == ContendForPreferredAddress ==>
                  u == Stepped(n.(state := Restart), Silence))
  {
  }

  // ---- what is known about the others ------------------------------------------------

  /** A recorded node, other than this one and the claimant, that has the claimed address. */
  predicate Loses(n: Node, k: Name, m: Name, a: Address) {
    k in n.known && n.known[k] == a && n.Knows(k) && k != n.name && k != m
  }

  lemma LosersAreForgotten(n: Node, m: Name, a: Address)
    ensures var n' := EvictInactive(Contend(n, m, a), m, a);
            && n'.name == n.name && n'.table == n.table && n'.inactive == n.inactive
            && (n.name in n.inactive ==> n'.holding != Holds(a) || m == n.name)
            && n'.known == map k | k in n.known && !Loses(n, k, m, a) :: n.known[k]
  {
    var c := Contend(n, m, a);
    assert c.table == n.table && c.inactive == n.inactive;
    assert c.known == map k | k in n.known && !(n.InTable(k) && k != m && k != n.name && n.known[k] == a) :: n.known[k];
    hide Contend;
  }

  /** After a claim this node knows its sender at the claimed address, and of the other recorded
      nodes exactly those that were known there are known nowhere. */
  lemma ClaimIsKnown(n: Node, m: Name, a: Address)
    requires m != n.name
    ensures OnClaim(n, m, a).known == (map k | k in n.known && !Loses(n, k, m, a) :: n.known[k])[m := a]
  {
    hide Contend, EvictInactive, UpdateAddressTable;
    LosersAreForgotten(n, m, a);
    var c := EvictInactive(Contend(n, m, a), m, a);
    RecordKnown(c, m, a, !n.Knows(m));
    UpdateTableKnown(UpdateControlFunctions(n, m, a), a);
  }

  lemma RecordKnown(n: Node, m: Name, a: Address, isNew: bool)
    requires m != n.name
    ensures Record(n, m, a, isNew).known == n.known[m := a]
  {
  }

  lemma UpdateTableKnown(n: Node, a: Address)
    ensures UpdateAddressTable(n, a).known == n.known
  {
  }

  /** Where the claimant is entered: a new one, one that moves here, and one that comes back
      after it had been put aside is entered at its address, unless another node is still
      recorded there. */
  lemma ClaimIsEntered(n: Node, m: Name, a: Address)
    requires m != n.name
    ensures var n' := OnClaim(n, m, a);
            && (!n.Knows(m) ==> n'.table == n.table[a := m] && n'.inactive == n.inactive)
            && (n.Knows(m) && m in n.known && n.known[m] != a ==>
                  n'.table == n.table[a := m] - {n.known[m]} && n'.inactive == n.inactive)
            && (m !in n.known && m in n.inactive && (a in n.table ==> Loses(n, n.table[a], m, a)) ==>
                  n'.table == n.table[a := m]
                  && n'.inactive == n.inactive + if a in n.table then [n.table[a]] else [])
  {
    hide Contend, EvictInactive, Node.InTable, UpdateAddressTable;
    LosersAreForgotten(n, m, a);
    var c := EvictInactive(Contend(n, m, a), m, a);
    if !n.Knows(m) || (m in n.known && n.known[m] != a) {
      PresentStays(UpdateControlFunctions(n, m, a), m, a);
    } else if m !in n.known && m in n.inactive && (a in n.table ==> Loses(n, n.table[a], m, a)) {
      assert n.Knows(m) && c.HoldingOf(m).Nothing?;
      forall k | k in c.inactive && k != m ensures c.HoldingOf(k) != Holds(a) {
        assert n.Knows(k);
      }
      ComesBack(c, m, a);
    }
  }

  lemma PresentStays(n: Node, m: Name, a: Address)
    requires a in n.table && n.table[a] == m && m != n.name && m in n.known
    ensures UpdateAddressTable(n, a) == n
  {
  }

  /** The slot is free, or its holder has lost the address, and nobody else put aside has it. */
  lemma ComesBack(c: Node, m: Name, a: Address)
    requires m != c.name && m !in c.known && m in c.inactive
    requires a in c.table ==> c.table[a] != c.name && c.table[a] !in c.known && c.table[a] != m
    requires forall k | k in c.inactive && k != m :: c.HoldingOf(k) != Holds(a)
    ensures var n' := UpdateAddressTable(c.(known := c.known[m := a]), a);
            && n'.table == c.table[a := m]
            && n'.inactive == c.inactive + if a in c.table then [c.table[a]] else []
  {
    var n := c.(known := c.known[m := a]);
    var evicted := if a in n.table then n.(inactive := n.inactive + [n.table[a]], table := n.table - {a}) else n;
    var i := InactiveAt(evicted, a, 0);
    FirstInactive(evicted, m, a);
    assert (c.table - {a})[a := m] == c.table[a := m];
  }

  lemma FirstInactive(n: Node, m: Name, a: Address)
    requires m in n.inactive && n.HoldingOf(m) == Holds(a)
    requires forall k | k in n.inactive && k != m :: n.HoldingOf(k) != Holds(a)
    ensures var i := InactiveAt(n, a, 0); i < |n.inactive| && n.inactive[i] == m
  {
    InactiveFound(n, m, a, 0);
  }

  lemma {:induction false} InactiveFound(n: Node, m: Name, a: Address, from: nat)
    requires from <= |n.inactive| && m in n.inactive[from..] && n.HoldingOf(m) == Holds(a)
    ensures InactiveAt(n, a, from) < |n.inactive|
    decreases |n.inactive| - from
  {
    if n.HoldingOf(n.inactive[from]) != Holds(a) {
      InactiveFound(n, m, a, from + 1);
    }
  }

  /** A node that claims is entered at its new address and nowhere else; whoever was recorded there
      is known nowhere any more, and nothing else changes. */
  lemma OwnClaimIsEntered(n: Node, expired: bool, answers: seq<bool>)
    requires Update(n, expired, answers).sent.Claim?
    ensures var u := Update(n, expired, answers);
            && (forall s :: s in u.node.table <==> s == u.sent.a || (s in n.table && n.table[s] != n.name))
            && (forall s | s in u.node.table :: u.node.table[s] == if s == u.sent.a then n.name else n.table[s])
            && (forall k :: k in u.node.known <==> k in n.known && !(u.sent.a in n.table && n.table[u.sent.a] == k && k != n.name))
            && (forall k | k in u.node.known :: u.node.known[k] == n.known[k])
            && u.node.inactive == n.inactive
  {
    hide Update, TakePlace;
    ClaimsOrMovesOn(n, expired, answers);
    var a := Update(n, expired, answers).sent.a;
    PlaceTaken(n.(holding := Holds(a), state := AddressClaimingComplete), a);
    PlaceTaken(n.(preferred := Holds(a), holding := Holds(a), state := AddressClaimingComplete), a);
  }

  lemma PlaceTaken(n: Node, a: Address)
    requires n.holding == Holds(a)
    ensures var n' := TakePlace(n, a);
            && (forall s :: s in n'.table <==> s == a || (s in n.table && n.table[s] != n.name))
            && (forall s | s in n'.table :: n'.table[s] == if s == a then n.name else n.table[s])
            && (forall k :: k in n'.known <==> k in n.known && !(a in n.table && n.table[a] == k && k != n.name))
            && (forall k | k in n'.known :: n'.known[k] == n.known[k])
            && n'.inactive == n.inactive
  {
  }

  /** A node that does not answer a request is put aside and known nowhere; nobody else is. */
  lemma PruneIff(n: Node, a: Address)
    ensures var n' := Prune(n, a);
            && (a in n.table && n.table[a] != n.name ==>
                  && n'.inactive == n.inactive + [n.table[a]] && n'.table == n.table - {a}
                  && (forall k :: k in n'.known <==> k in n.known && k != n.table[a])
                  && (forall k | k in n'.known :: n'.known[k] == n.known[k]))
            && (a !in n.table || n.table[a] == n.name ==> n' == n)
  {
  }
}
