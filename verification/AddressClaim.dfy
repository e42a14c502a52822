/** One node that claims an address on the bus: its internal control function and what it
    knows about the other ones. Control functions are identified by their NAME. */
module AddressClaim {
  import opened Widths

  const NULL_ADDRESS: u8 := 0xFE
  const ARBITRATION_STARTING_ADDRESS := 128

  type Name = n: int | 0 <= n < 0x1_0000_0000_0000_0000

  /** An address that a control function can hold. */
  type Address = a: int | 0 <= a < 0xFE

  datatype State =
    | Restart
    | WaitForClaim
    | SendRequestForClaim
    | WaitForRequestContentionPeriod
    | SendPreferredAddressClaim
    | SendArbitraryAddressClaim
    | SendReclaimAddressOnRequest
    | UnableToClaim
    | ContendForPreferredAddress
    | AddressClaimingComplete

  datatype IndustryGroup = Global | OnHighway | Agricultural | Construction | Marine | Industrial | Reserved

  function ArbitrationEnd(group: IndustryGroup): u8 {
    match group
    case Global => 247
    case OnHighway => 158
    case Agricultural => 235
    case Construction | Marine | Industrial => 207
    case Reserved => ARBITRATION_STARTING_ADDRESS
  }

  datatype Holding = Nothing | Holds(a: Address)

  /** `table` says who is recorded at an address, `known` which address the others have as far
      as this node knows, `inactive` lists those moved out of the table. */
  datatype Node = Node(
    name: Name,
    arbitraryCapable: bool,
    group: IndustryGroup,
    preferred: Holding,
    state: State,
    holding: Holding,
    table: map<Address, Name>,
    known: map<Name, Address>,
    inactive: seq<Name>)
  {
    /** The address of a recorded control function. */
    function HoldingOf(m: Name): Holding {
      if m == name then holding else if m in known then Holds(known[m]) else Nothing
    }

    predicate InTable(m: Name) { exists a | a in table :: table[a] == m }

    predicate Knows(m: Name) { InTable(m) || m in inactive }

    function Forget(m: Name): Node {
      if m == name then this.(holding := Nothing) else this.(known := known - {m})
    }
  }

  // ---- another node claims an address ------------------------------------------------

  /** Everybody in the table who holds the claimed address loses it, except this node when it
      has the smaller NAME and is not in the middle of claiming. */
  function Contend(n: Node, m: Name, a: Address): Node {
    var known := map k | k in n.known && !(n.InTable(k) && k != m && k != n.name && n.known[k] == a) :: n.known[k];
    var others := n.(known := known);
    if !n.InTable(n.name) || m == n.name || n.holding != Holds(a) then others
    else if m > n.name && n.state == AddressClaimingComplete then others.(state := SendReclaimAddressOnRequest)
    else
      others.(holding := Nothing,
              state := if n.state == AddressClaimingComplete then WaitForRequestContentionPeriod else n.state)
  }

  /** So does everybody in the list of inactive ones, without any exception. */
  function EvictInactive(n: Node, m: Name, a: Address): Node {
    var known := map k | k in n.known && !(k in n.inactive && k != m && k != n.name && n.known[k] == a) :: n.known[k];
    n.(known := known,
       holding := if n.name in n.inactive && m != n.name && n.holding == Holds(a) then Nothing else n.holding)
  }

  /** The claimant is entered in the table when it is new or moves from another address. */
  function Record(n: Node, m: Name, a: Address, isNew: bool): Node {
    if isNew then n.(table := n.table[a := m], known := n.known[m := a])
    else
      match n.HoldingOf(m)
      case Nothing => n.(known := n.known[m := a])
      case Holds(before) => if before == a then n else n.(table := n.table[a := m] - {before}, known := n.known[m := a])
  }

  /** `update_control_functions` for a claim of another NAME. */
  function UpdateControlFunctions(n: Node, m: Name, a: Address): Node {
    Record(EvictInactive(Contend(n, m, a), m, a), m, a, !n.Knows(m))
  }

  /** The first inactive control function that holds the address. */
  function InactiveAt(n: Node, a: Address, from: nat): (i: nat)
    requires from <= |n.inactive|
    ensures from <= i <= |n.inactive|
    ensures i < |n.inactive| ==> n.HoldingOf(n.inactive[i]) == Holds(a)
    decreases |n.inactive| - from
  {
    if from == |n.inactive| || n.HoldingOf(n.inactive[from]) == Holds(a) then from else InactiveAt(n, a, from + 1)
  }

  /** `update_address_table` for a claim */
  function UpdateAddressTable(n: Node, a: Address): Node {
    var evicted := if a in n.table && n.HoldingOf(n.table[a]).Nothing?
                   then n.(inactive := n.inactive + [n.table[a]], table := n.table - {a})
                   else n;
    var i := InactiveAt(evicted, a, 0);
    if a in evicted.table || i == |evicted.inactive| then evicted
    else evicted.(table := evicted.table[a := evicted.inactive[i]])
  }

  /** `process_rx_message_for_address_violation` */
  function OnViolation(n: Node, a: Address): Node {
    if n.holding == Holds(a) && n.state == AddressClaimingComplete then n.(state := SendReclaimAddressOnRequest) else n
  }

  /** Everything a node does about a claim before it sends anything itself. */
  function OnClaim(n: Node, m: Name, a: Address): Node {
    OnViolation(UpdateAddressTable(UpdateControlFunctions(n, m, a), a), a)
  }

  /** A request for address claims, to everybody. */
  function OnRequest(n: Node): Node {
    if n.state == AddressClaimingComplete then n.(state := SendReclaimAddressOnRequest) else n
  }

  /** A control function that did not answer a request goes offline. */
  function Prune(n: Node, a: Address): Node {
    if a in n.table && n.table[a] != n.name
    then n.(inactive := n.inactive + [n.table[a]], table := n.table - {a}, known := n.known - {n.table[a]})
    else n
  }

  // ---- this node claims an address ---------------------------------------------------

  datatype Sent = Silence | Request | Claim(a: Address) | CannotClaim

  datatype Stepped = Stepped(node: Node, sent: Sent)

  /** The next state once the contention period is over. */
  function Decide(n: Node): State {
    if n.preferred.Holds? && n.preferred.a !in n.table then SendPreferredAddressClaim
    else if n.preferred.Holds? && n.table[n.preferred.a] > n.name then ContendForPreferredAddress
    else if n.arbitraryCapable then SendArbitraryAddressClaim
    else UnableToClaim
  }

  /** The lowest free address whose claim is not refused; `tried` claims were refused before. */
  function Search(n: Node, from: nat, tried: nat, answers: seq<bool>): (h: Holding)
    ensures h.Holds? ==> from <= h.a <= ArbitrationEnd(n.group) && h.a !in n.table
    decreases 0xFE - from
  {
    if from > ArbitrationEnd(n.group) then Nothing
    else if from in n.table then Search(n, from + 1, tried, answers)
    else if Accepts(answers, tried) then Holds(from)
    else Search(n, from + 1, tried + 1, answers)
  }

  /** `update_internal_cfs` after a claim: this node takes its place in the table. */
  function TakePlace(n: Node, a: Address): Node {
    var table := map b | b in n.table && n.table[b] != n.name :: n.table[b];
    var vacated := n.(table := table);
    (if a in table then vacated.Forget(table[a]) else vacated).(table := table[a := n.name])
  }

  function Claiming(n: Node, a: Address): Stepped {
    Stepped(TakePlace(n.(holding := Holds(a), state := AddressClaimingComplete), a), Claim(a))
  }

  function ClaimPreferred(n: Node, answers: seq<bool>): Stepped {
    if n.preferred.Holds? && Accepts(answers, 0) then Claiming(n, n.preferred.a)
    else Stepped(n.(state := Restart), Silence)
  }

  function ClaimArbitrary(n: Node, answers: seq<bool>): Stepped {
    match Search(n, ARBITRATION_STARTING_ADDRESS, 0, answers)
    case Holds(a) => Claiming(if n.preferred.Nothing? then n.(preferred := Holds(a)) else n, a)
    case Nothing => Stepped(n.(state := UnableToClaim), CannotClaim)
  }

  /** `update_address_claiming`; a node that lost its address before it could claim it again
      announces that it has none. */
  function Update(n: Node, expired: bool, answers: seq<bool>): Stepped {
    match n.state
    case Restart => Stepped(n.(state := WaitForClaim), Silence)
    case WaitForClaim => Stepped(if expired then n.(state := SendRequestForClaim) else n, Silence)
    case SendRequestForClaim =>
      if Accepts(answers, 0) then Stepped(n.(state := WaitForRequestContentionPeriod), Request) else Stepped(n, Silence)
    case WaitForRequestContentionPeriod =>
      if !expired then Stepped(n, Silence)
      else Stepped(n.(state := Decide(n)), if Decide(n) == UnableToClaim then CannotClaim else Silence)
    case SendPreferredAddressClaim | ContendForPreferredAddress => ClaimPreferred(n, answers)
    case SendArbitraryAddressClaim => ClaimArbitrary(n, answers)
    case SendReclaimAddressOnRequest =>
      if !Accepts(answers, 0) then Stepped(n, Silence)
      else if n.holding.Holds? then Claiming(n, n.holding.a)
      else Stepped(n.(state := AddressClaimingComplete), CannotClaim)
    case UnableToClaim | AddressClaimingComplete => Stepped(n, Silence)
  }

  /** The address at which `update_internal_cfs` enters the node in the table after this update,
      if it does. A claim of the null address, repeated on request, counts as a claim. */
  function Entered(n: Node, expired: bool, answers: seq<bool>): seq<u8> {
    var u := Update(n, expired, answers);
    match u.sent
    case Claim(a) => [a]
    case CannotClaim => if u.node.state == AddressClaimingComplete then [NULL_ADDRESS] else []
    case _ => []
  }

  /** The table has one place for each address below the null address. The node is entered
      outside of it exactly when it repeats a claim but has lost its address meanwhile. */
  lemma EnteredOutsideIff(n: Node, expired: bool, answers: seq<bool>)
    ensures (exists a :: a in Entered(n, expired, answers) && a >= NULL_ADDRESS)
            <==> n.state == SendReclaimAddressOnRequest && n.holding.Nothing? && Accepts(answers, 0)
  {
    hide Search, TakePlace, Decide;
    var u, e := Update(n, expired, answers), Entered(n, expired, answers);
    if n.state == SendReclaimAddressOnRequest && n.holding.Nothing? && Accepts(answers, 0) {
      assert NULL_ADDRESS in e by {
        assert e == [NULL_ADDRESS];
      }
    } else {
      assert u.sent.CannotClaim? ==> u.node.state == UnableToClaim;
      assert forall a | a in e :: u.sent == Claim(a);
    }
  }

  // ---- who keeps an address ----------------------------------------------------------

  /** Only a node that has finished claiming, or is to claim again, holds an address. */
  predicate Consistent(n: Node) {
    n.holding.Holds? ==> n.state == AddressClaimingComplete || n.state == SendReclaimAddressOnRequest
  }

  /** What the tables say about others does not touch the node itself. */
  predicate SameSelf(n: Node, m: Node) {
    n.name == m.name && n.preferred == m.preferred && n.state == m.state && n.holding == m.holding
    && n.arbitraryCapable == m.arbitraryCapable && n.group == m.group
  }

  lemma RecordIsAboutOthers(n: Node, m: Name, a: Address, isNew: bool)
    requires m != n.name
    ensures SameSelf(Record(n, m, a, isNew), n)
  {
  }

  lemma UpdateAddressTableIsAboutOthers(n: Node, a: Address)
    ensures SameSelf(UpdateAddressTable(n, a), n)
  {
  }

  lemma EvictInactiveSelf(n: Node, m: Name, a: Address)
    ensures var n' := EvictInactive(n, m, a);
            SameSelf(n', n.(holding := n'.holding))
            && n'.holding == (if n.name in n.inactive && m != n.name && n.holding == Holds(a) then Nothing else n.holding)
  {
  }

  lemma ContendSelf(n: Node, m: Name, a: Address)
    requires m != n.name
    ensures var n' := Contend(n, m, a);
            && n'.inactive == n.inactive
            && if !n.InTable(n.name) || n.holding != Holds(a) then SameSelf(n', n)
               else if m > n.name && n.state == AddressClaimingComplete then SameSelf(n', n.(state := SendReclaimAddressOnRequest))
               else SameSelf(n', n.(holding := Nothing, state := if n.state == AddressClaimingComplete then WaitForRequestContentionPeriod else n.state))
  {
  }

  lemma OnClaimSelf(n: Node, m: Name, a: Address)
    requires m != n.name
    ensures SameSelf(OnClaim(n, m, a), OnViolation(EvictInactive(Contend(n, m, a), m, a), a))
  {
    hide Contend, EvictInactive, Record, UpdateAddressTable;
    var n1 := EvictInactive(Contend(n, m, a), m, a);
    ContendSelf(n, m, a);
    EvictInactiveSelf(Contend(n, m, a), m, a);
    RecordIsAboutOthers(n1, m, a, !n.Knows(m));
    UpdateAddressTableIsAboutOthers(UpdateControlFunctions(n, m, a), a);
  }

  /** A claim of another node's own address changes nothing here; a claim of this node's
      address takes it away or makes the node claim it again. */
  lemma OnClaimEffect(n: Node, m: Name, a: Address)
    requires m != n.name && Consistent(n)
    ensures var n' := OnClaim(n, m, a);
            && n'.name == n.name && n'.preferred == n.preferred && Consistent(n')
            && (n.holding != Holds(a) ==> n'.holding == n.holding && n'.state == n.state)
            && (n.holding == Holds(a) ==>
                  n'.holding == Nothing || (n'.holding == n.holding && n'.state == SendReclaimAddressOnRequest))
  {
    hide Contend, EvictInactive, OnClaim;
    OnClaimSelf(n, m, a);
    ContendSelf(n, m, a);
    EvictInactiveSelf(Contend(n, m, a), m, a);
  }

  /** When a node keeps its address against another NAME: it must not be listed as inactive
      and, if it is in its own table, it must have the smaller NAME and have no claim to make. */
  predicate Keeps(n: Node, m: Name) {
    n.name !in n.inactive && (n.InTable(n.name) ==> m > n.name && n.state == AddressClaimingComplete)
  }

  lemma KeepsIff(n: Node, m: Name, a: Address)
    requires m != n.name && n.holding == Holds(a)
    ensures OnClaim(n, m, a).holding == Holds(a) <==> Keeps(n, m)
  {
    hide Contend, EvictInactive, OnClaim;
    OnClaimSelf(n, m, a);
    ContendSelf(n, m, a);
    EvictInactiveSelf(Contend(n, m, a), m, a);
  }

  /** The node is in one place of its table at most, which is its address when it has one. */
  predicate Placed(n: Node) {
    && (forall s, t | s in n.table && t in n.table && n.table[s] == n.table[t] == n.name :: s == t)
    && (forall s | s in n.table && n.table[s] == n.name && n.holding.Holds? :: s == n.holding.a)
  }

  lemma UpdateControlFunctionsPlaces(n: Node, m: Name, a: Address)
    requires Placed(n) && m != n.name
    ensures Placed(UpdateControlFunctions(n, m, a))
  {
    hide Contend, EvictInactive, Node.InTable;
    ContendSelf(n, m, a);
    var n1 := Contend(n, m, a);
    ContendTable(n, m, a);
    ContendTable(n1, m, a);
    EvictInactiveSelf(n1, m, a);
    RecordIsAboutOthers(EvictInactive(n1, m, a), m, a, !n.Knows(m));
  }

  lemma ContendTable(n: Node, m: Name, a: Address)
    ensures Contend(n, m, a).table == n.table && EvictInactive(n, m, a).table == n.table
  {
  }

  lemma UpdateAddressTablePlaces(n: Node, a: Address)
    requires Placed(n)
    ensures Placed(UpdateAddressTable(n, a))
  {
    UpdateAddressTableIsAboutOthers(n, a);
  }

  lemma OnClaimPlaces(n: Node, m: Name, a: Address)
    requires Placed(n) && m != n.name
    ensures Placed(OnClaim(n, m, a))
  {
    hide UpdateControlFunctions, UpdateAddressTable;
    UpdateControlFunctionsPlaces(n, m, a);
    UpdateAddressTablePlaces(UpdateControlFunctions(n, m, a), a);
  }

  lemma TakesPlace(n: Node, a: Address)
    requires n.holding == Holds(a)
    ensures var n' := TakePlace(n, a);
            SameSelf(n', n) && n'.inactive == n.inactive && Placed(n') && a in n'.table && n'.table[a] == n.name
  {
  }

  /** A node that claims an address is in its own table from then on. */
  lemma UpdateEffect(n: Node, expired: bool, answers: seq<bool>)
    requires Consistent(n) && Placed(n)
    ensures var u := Update(n, expired, answers);
            && u.node.name == n.name && Consistent(u.node) && Placed(u.node) && u.node.inactive == n.inactive
            && (u.sent.Claim? ==> u.node.holding == Holds(u.sent.a) && u.node.InTable(n.name)
                                  && u.node.state == AddressClaimingComplete)
            && (!u.sent.Claim? ==> u.node.holding == n.holding && (n.holding.Holds? ==> u.node.state == n.state))
  {
    hide Decide, Search, Placed, Claiming, Node.InTable;
    var u := Update(n, expired, answers);
    ClaimsOrMovesOn(n, expired, answers);
    if u.sent.Claim? {
      ClaimingEffect(n, u.sent.a);
      ClaimingEffect(n.(preferred := Holds(u.sent.a)), u.sent.a);
    } else {
      PlacedInAnyState(n, u.node.state);
    }
  }

  lemma ClaimsOrMovesOn(n: Node, expired: bool, answers: seq<bool>)
    ensures var u := Update(n, expired, answers);
            if u.sent.Claim? then u == Claiming(n, u.sent.a) || u == Claiming(n.(preferred := Holds(u.sent.a)), u.sent.a)
            else u.node == n.(state := u.node.state) && (Consistent(n) && n.holding.Holds? ==> u.node.state == n.state)
  {
    hide Decide, Search, TakePlace;
  }

  lemma ClaimingEffect(n: Node, a: Address)
    ensures var u := Claiming(n, a);
            && u.sent == Claim(a) && u.node.name == n.name && u.node.holding == Holds(a) && u.node.inactive == n.inactive
            && u.node.state == AddressClaimingComplete && u.node.InTable(n.name) && Placed(u.node)
  {
    hide TakePlace;
    TakesPlace(n.(holding := Holds(a), state := AddressClaimingComplete), a);
    assert Claiming(n, a).node.table[a] == n.name;
  }

  lemma PlacedInAnyState(n: Node, state: State)
    requires Placed(n)
    ensures Placed(n.(state := state))
  {
  }

  lemma PruneEffect(n: Node, a: Address)
    requires Placed(n)
    ensures SameSelf(Prune(n, a), n) && Placed(Prune(n, a)) && (n.InTable(n.name) ==> Prune(n, a).InTable(n.name))
  {
    if n.InTable(n.name) {
      var b :| b in n.table && n.table[b] == n.name;
      assert b in Prune(n, a).table;
    }
  }

  // ---- what goes wrong ---------------------------------------------------------------

  /** A node that is about to repeat its claim on request gives its address up to any NAME,
      larger ones included, is entered at the null address, for which its table has no place,
      and then finishes claiming without an address for good. */
  lemma RequestedNodeYields(n: Node, m: Name, a: Address, answers: seq<bool>)
    requires m != n.name && n.holding == Holds(a) && n.InTable(n.name) && n.state == AddressClaimingComplete
    requires Accepts(answers, 0)
    ensures var lost := OnClaim(OnRequest(n), m, a);
            && lost.holding == Nothing && Entered(lost, true, answers) == [NULL_ADDRESS]
            && var after := Update(lost, true, answers).node;
               after.holding == Nothing && after.state == AddressClaimingComplete
               && forall expired, more :: Update(after, expired, more).node == after
  {
    hide OnClaim, Contend, EvictInactive, Record, UpdateAddressTable;
    var r := OnRequest(n);
    assert r.InTable(r.name) by {
      var s :| s in n.table && n.table[s] == n.name;
      assert r.table[s] == n.name;
    }
    KeepsIff(r, m, a);
    OnClaimEffect(r, m, a);
    OnClaimSelf(r, m, a);
    ContendSelf(r, m, a);
    EvictInactiveSelf(Contend(r, m, a), m, a);
  }

  /** Node 5 holds address 10 and has finished claiming. */
  function Settled(): Node {
    Node(5, true, Agricultural, Holds(10), AddressClaimingComplete, Holds(10), map[10 := 5], map[], [])
  }

  lemma DeviceLeaves()
    ensures Prune(OnClaim(Settled(), 3, 20), 20) == Settled().(inactive := [3])
  {
    var n := Settled();
    assert n.table[10] == 5;
    assert !n.Knows(3);
    assert Contend(n, 3, 20) == n;
    assert EvictInactive(n, 3, 20) == n;
    var n1 := n.(table := map[10 := 5, 20 := 3], known := map[3 := 20]);
    assert Record(n, 3, 20, true) == n1;
    assert UpdateAddressTable(n1, 20) == n1;
    assert n1.table - {20} == map[10 := 5] && n1.known - {3} == map[];
  }

  /** When a device with a smaller NAME comes back and takes the address, the node lists itself
      as inactive, and it stays listed after it has claimed another address. */
  lemma DeviceReturns()
    ensures var n := OnClaim(Settled().(inactive := [3]), 3, 10);
            n == Settled().(holding := Nothing, state := WaitForRequestContentionPeriod,
                            table := map[10 := 3], known := map[3 := 10], inactive := [3, 5])
  {
    var n := Settled().(inactive := [3]);
    assert n.table[10] == 5 && n.InTable(5);
    assert n.inactive[0] == 3 && n.Knows(3);
    var n1 := n.(holding := Nothing, state := WaitForRequestContentionPeriod);
    assert Contend(n, 3, 10) == n1;
    assert EvictInactive(n1, 3, 10) == n1;
    var n2 := n1.(known := map[3 := 10]);
    assert Record(n1, 3, 10, false) == n2;
    assert n2.table - {10} == map[];
    var n3 := n2.(inactive := [3, 5], table := map[]);
    assert InactiveAt(n3, 10, 0) == 0;
    assert UpdateAddressTable(n2, 10) == n3.(table := map[10 := 3]);
  }

  /** So a node with NAME 5 loses its new address to NAME 9. */
  lemma ListedNodeYields()
    ensures var lost := OnClaim(Prune(OnClaim(Settled(), 3, 20), 20), 3, 10);
            var claimed := Update(Update(lost, true, []).node, true, [true]);
            && claimed.sent == Claim(128) && claimed.node.state == AddressClaimingComplete
            && OnClaim(claimed.node, 9, 128).holding == Nothing
  {
    hide OnClaim, Prune;
    DeviceLeaves();
    DeviceReturns();
    var lost := Settled().(holding := Nothing, state := WaitForRequestContentionPeriod,
                           table := map[10 := 3], known := map[3 := 10], inactive := [3, 5]);
    var decided := lost.(state := SendArbitraryAddressClaim);
    assert Update(lost, true, []).node == decided;
    assert Search(decided, 128, 0, [true]) == Holds(128);
    var claimed := Update(decided, true, [true]);
    hide TakePlace;
    TakesPlace(decided.(holding := Holds(128), state := AddressClaimingComplete), 128);
    assert claimed.node.inactive[1] == 5;
    KeepsIff(claimed.node, 9, 128);
    OnClaimEffect(claimed.node, 9, 128);
  }

  /** The search takes the lowest free address, and fails only when none is free. */
  lemma {:induction false} SearchFindsLowest(n: Node, from: nat, tried: nat, answers: seq<bool>)
    requires Accepts(answers, tried)
    ensures match Search(n, from, tried, answers)
            case Holds(a) => forall b: Address | from <= b < a :: b in n.table
            case Nothing => forall b: Address | from <= b <= ArbitrationEnd(n.group) :: b in n.table
    decreases 0xFE - from
  {
    if from <= ArbitrationEnd(n.group) && from in n.table {
      SearchFindsLowest(n, from + 1, tried, answers);
    }
  }
}
