/** The node of `AddressClaim` as an object that is updated in place, with the loops over the
    table, the list of inactive control functions and the addresses to try. */
module AddressManagers {
  import opened Widths
  import opened AddressClaim

  class AddressManager {
    const name: Name
    const arbitraryCapable: bool
    const group: IndustryGroup
    var preferred: Holding
    var state: State
    var holding: Holding
    var table: map<Address, Name>
    var known: map<Name, Address>
    var inactive: seq<Name>

    function Model(): Node
      reads this
    {
      Node(name, arbitraryCapable, group, preferred, state, holding, table, known, inactive)
    }

    constructor (name: Name, arbitraryCapable: bool, group: IndustryGroup, preferred: Holding)
      ensures Model() == Node(name, arbitraryCapable, group, preferred, Restart, Nothing, map[], map[], [])
      ensures Consistent(Model()) && Placed(Model())
    {
      this.name, this.arbitraryCapable, this.group, this.preferred := name, arbitraryCapable, group, preferred;
      state, holding, table, known, inactive := Restart, Nothing, map[], map[], [];
    }

    /** Takes the claimed address from everybody in the table but the claimant. */
    method ContendInTable(m: Name, a: Address)
      requires m != name && Placed(Model())
      modifies this`known, this`holding, this`state
      ensures Model() == Contend(old(Model()), m, a)
    {
      hide ContendedUpTo, Contend, Placed;
      ghost var before := Model();
      NoneContended(before, m, a);
      for slot := 0 to 0xFE
        invariant table == before.table && inactive == before.inactive && preferred == before.preferred
        invariant ContendedUpTo(before, Model(), slot, m, a)
      {
        ContendedNext(before, Model(), slot, m, a);
        if slot in table && table[slot] != m && Model().HoldingOf(table[slot]) == Holds(a) {
          if table[slot] != name {
            known := known - {table[slot]};
          } else if m > name && state == AddressClaimingComplete {
            state := SendReclaimAddressOnRequest;
          } else {
            if state == AddressClaimingComplete {
              state := WaitForRequestContentionPeriod;
            }
            holding := Nothing;
          }
        }
      }
      ContendedAll(before, Model(), m, a);
    }

    method EvictFromInactive(m: Name, a: Address)
      requires m != name
      modifies this`known, this`holding
      ensures Model() == EvictInactive(old(Model()), m, a)
    {
      ghost var before := Model();
      for i := 0 to |inactive|
        invariant forall k | k in known :: k in before.known && known[k] == before.known[k]
        invariant forall k | k in before.known :: k in known <==> !(k in inactive[..i] && k != m && k != name && before.known[k] == a)
        invariant holding == if name in inactive[..i] && before.holding == Holds(a) then Nothing else before.holding
      {
        assert inactive[..i + 1] == inactive[..i] + [inactive[i]];
        if inactive[i] != m && Model().HoldingOf(inactive[i]) == Holds(a) {
          if inactive[i] == name {
            holding := Nothing;
          } else {
            known := known - {inactive[i]};
          }
        }
      }
      assert inactive[..|inactive|] == inactive;
    }

    method ProcessClaim(m: Name, a: Address)
      requires m != name && Placed(Model())
      modifies this
      ensures Model() == OnClaim(old(Model()), m, a)
    {
      hide Contend, EvictInactive, Record, UpdateAddressTable, Placed, Node.InTable, Node.HoldingOf;
      var isNew := !Model().Knows(m);
      ContendInTable(m, a);
      EvictFromInactive(m, a);
      EnterClaimant(m, a, isNew);
      RefreshSlot(a);
      if holding == Holds(a) && state == AddressClaimingComplete {
        state := SendReclaimAddressOnRequest;
      }
    }

    method EnterClaimant(m: Name, a: Address, isNew: bool)
      requires m != name
      modifies this`table, this`known
      ensures Model() == Record(old(Model()), m, a, isNew)
    {
      if isNew {
        known, table := known[m := a], table[a := m];
      } else if Model().HoldingOf(m) != Holds(a) {
        if m in known {
          table := table[a := m];
          table := table - {known[m]};
        }
        known := known[m := a];
      }
    }

    /** Moves a control function that lost the address out of the slot, and one that has it in. */
    method RefreshSlot(a: Address)
      modifies this`table, this`inactive
      ensures Model() == UpdateAddressTable(old(Model()), a)
    {
      if a in table && Model().HoldingOf(table[a]).Nothing? {
        inactive, table := inactive + [table[a]], table - {a};
      }
      if a !in table {
        var i := 0;
        while i < |inactive| && Model().HoldingOf(inactive[i]) != Holds(a)
          invariant 0 <= i <= |inactive| && InactiveAt(Model(), a, 0) == InactiveAt(Model(), a, i)
        {
          i := i + 1;
        }
        if i < |inactive| {
          table := table[a := inactive[i]];
        }
      }
    }

    /** Tries the addresses of the arbitration range in turn. */
    method FindAddress(answers: seq<bool>) returns (found: Holding)
      ensures found == Search(Model(), ARBITRATION_STARTING_ADDRESS, 0, answers)
    {
      found := Nothing;
      var i, tried: nat := ARBITRATION_STARTING_ADDRESS, 0;
      while i <= ArbitrationEnd(group) && found.Nothing?
        invariant i <= ArbitrationEnd(group) + 1
        invariant Search(Model(), ARBITRATION_STARTING_ADDRESS, 0, answers)
                  == if found.Holds? then found else Search(Model(), i, tried, answers)
        decreases ArbitrationEnd(group) + 1 - i, found.Nothing?
      {
        if i !in table {
          if Accepts(answers, tried) {
            found := Holds(i);
          }
          tried := tried + 1;
        }
        i := i + 1;
      }
    }

    method FinishClaim(a: Address)
      modifies this`holding, this`state, this`table, this`known
      ensures Stepped(Model(), Claim(a)) == Claiming(old(Model()), a)
    {
      holding, state := Holds(a), AddressClaimingComplete;
      table := map b | b in table && table[b] != name :: table[b];
      if a in table {
        known := known - {table[a]};
      }
      table := table[a := name];
    }

    method UpdateAddressClaiming(expired: bool, answers: seq<bool>) returns (sent: Sent)
      modifies this
      ensures Stepped(Model(), sent) == Update(old(Model()), expired, answers)
    {
      hide Search, Claiming, Decide;
      sent := Silence;
      match state
      case Restart => state := WaitForClaim;
      case WaitForClaim =>
        if expired {
          state := SendRequestForClaim;
        }
      case SendRequestForClaim =>
        if Accepts(answers, 0) {
          state, sent := WaitForRequestContentionPeriod, Request;
        }
      case WaitForRequestContentionPeriod =>
        if expired {
          state := Decide(Model());
          if state == UnableToClaim {
            sent := CannotClaim;
          }
        }
      case SendPreferredAddressClaim | ContendForPreferredAddress =>
        if preferred.Holds? && Accepts(answers, 0) {
          FinishClaim(preferred.a);
          sent := Claim(preferred.a);
          ClaimingEffect(old(Model()), preferred.a);
        } else {
          state := Restart;
        }
      case SendArbitraryAddressClaim =>
        var found := FindAddress(answers);
        if found.Holds? {
          if preferred.Nothing? {
            preferred := found;
          }
          FinishClaim(found.a);
          sent := Claim(found.a);
        } else {
          state, sent := UnableToClaim, CannotClaim;
        }
      case SendReclaimAddressOnRequest =>
        if Accepts(answers, 0) {
          if holding.Holds? {
            var a := holding.a;
            FinishClaim(a);
            sent := Claim(a);
          } else {
            state, sent := AddressClaimingComplete, CannotClaim;
          }
        }
      case UnableToClaim | AddressClaimingComplete =>
    }
  }

  /** The name is in one of the slots before this one. */
  predicate Among(table: map<Address, Name>, slot: int, k: Name) {
    exists s | s in table :: s < slot && table[s] == k
  }

  /** The state `n` after the slots before this one have been visited. */
  ghost predicate ContendedUpTo(before: Node, n: Node, slot: int, m: Name, a: Address) {
    && n == before.(known := n.known, holding := n.holding, state := n.state)
    && (forall k | k in n.known :: k in before.known && n.known[k] == before.known[k])
    && (forall k | k in before.known ::
          k in n.known <==> !(Among(n.table, slot, k) && k != m && k != n.name && before.known[k] == a))
    && if Among(n.table, slot, n.name) && before.holding == Holds(a) then
         if m > n.name && before.state == AddressClaimingComplete
         then n.state == SendReclaimAddressOnRequest && n.holding == before.holding
         else
           && n.holding == Nothing
           && n.state == (if before.state == AddressClaimingComplete then WaitForRequestContentionPeriod else before.state)
       else n.holding == before.holding && n.state == before.state
  }

  /** What the visit of one slot makes of a state. */
  function Visit(n: Node, slot: Address, m: Name, a: Address): Node {
    if slot !in n.table || n.table[slot] == m || n.HoldingOf(n.table[slot]) != Holds(a) then n
    else if n.table[slot] != n.name then n.(known := n.known - {n.table[slot]})
    else if m > n.name && n.state == AddressClaimingComplete then n.(state := SendReclaimAddressOnRequest)
    else
      n.(holding := Nothing,
         state := if n.state == AddressClaimingComplete then WaitForRequestContentionPeriod else n.state)
  }

  lemma NoneContended(n: Node, m: Name, a: Address)
    ensures ContendedUpTo(n, n, 0, m, a)
  {
  }

  lemma AmongNext(table: map<Address, Name>, slot: Address, k: Name)
    ensures Among(table, slot + 1, k) <==> Among(table, slot, k) || (slot in table && table[slot] == k)
  {
    if Among(table, slot, k) {
      var s :| s in table && s < slot && table[s] == k;
      assert s in table && s < slot + 1;
    }
    if slot in table && table[slot] == k {
      assert slot < slot + 1;
    }
  }

  lemma NotAmong(n: Node, slot: Address)
    requires Placed(n)
    ensures slot in n.table && n.table[slot] == n.name ==> !Among(n.table, slot, n.name)
  {
  }

  lemma ContendedNext(before: Node, n: Node, slot: Address, m: Name, a: Address)
    requires ContendedUpTo(before, n, slot, m, a) && Placed(before) && m != n.name
    ensures ContendedUpTo(before, Visit(n, slot, m, a), slot + 1, m, a)
  {
    hide Among;
    var n' := Visit(n, slot, m, a);
    AmongNext(n.table, slot, n.name);
    forall k | k in before.known
      ensures k in n'.known <==> !(Among(n.table, slot + 1, k) && k != m && k != n.name && before.known[k] == a)
    {
      AmongNext(n.table, slot, k);
    }
    NotAmong(before, slot);
  }

  lemma ContendedAll(before: Node, n: Node, m: Name, a: Address)
    requires ContendedUpTo(before, n, 0xFE, m, a) && m != n.name
    ensures n == Contend(before, m, a)
  {
    forall k ensures Among(n.table, 0xFE, k) <==> before.InTable(k) {
      if before.InTable(k) {
        var s :| s in n.table && n.table[s] == k;
        assert s < 0xFE;
      }
    }
    assert n.known == Contend(before, m, a).known;
  }
}
