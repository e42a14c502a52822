/** Nodes that claim addresses on one bus. A claim reaches every other node before anything
    else is sent, and a node whose address was claimed answers before anyone else claims. */
module AddressNetwork {
  import opened AddressClaim

  /** `last` is the node that claimed an address last, or -1. */
  datatype Net = Net(nodes: seq<Node>, last: int)

  datatype Action =
    | UpdateNode(i: nat, expired: bool, answers: seq<bool>)
    | PruneNode(i: nat, a: Address)

  predicate Clash(net: Net, i: nat, j: nat)
    requires i < |net.nodes| && j < |net.nodes|
  {
    i != j && net.nodes[i].holding.Holds? && net.nodes[i].holding == net.nodes[j].holding
  }

  /** While two nodes hold the same address, the one that claimed it first has to answer. */
  predicate MayClaim(net: Net, i: nat)
    requires i < |net.nodes|
  {
    forall j, k | 0 <= j < |net.nodes| && 0 <= k < |net.nodes| && Clash(net, j, k) && j != net.last :: i == j
  }

  predicate InTurn(net: Net, action: Action) {
    match action
    case UpdateNode(i, expired, answers) =>
      i < |net.nodes| && Update(net.nodes[i], expired, answers).sent.Claim? ==> MayClaim(net, i)
    case PruneNode(_, _) => true
  }

  function Next(net: Net, action: Action): Net {
    match action
    case UpdateNode(i, expired, answers) =>
      if i >= |net.nodes| then net
      else
        var u := Update(net.nodes[i], expired, answers);
        (match u.sent
         case Claim(a) =>
           Net(seq(|net.nodes|, j requires 0 <= j < |net.nodes| =>
                 if j == i then u.node else OnClaim(net.nodes[j], u.node.name, a)), i)
         case Request =>
           net.(nodes := seq(|net.nodes|, j requires 0 <= j < |net.nodes| =>
                 if j == i then u.node else OnRequest(net.nodes[j])))
         case _ => net.(nodes := net.nodes[i := u.node]))
    case PruneNode(i, a) => if i < |net.nodes| then net.(nodes := net.nodes[i := Prune(net.nodes[i], a)]) else net
  }

  function Run(net: Net, actions: seq<Action>): Net
    decreases |actions|
  {
    if actions == [] then net else Next(Run(net, actions[..|actions| - 1]), actions[|actions| - 1])
  }

  predicate InTurnRun(net: Net, actions: seq<Action>)
    decreases |actions|
  {
    actions != [] ==>
      InTurnRun(net, actions[..|actions| - 1]) && InTurn(Run(net, actions[..|actions| - 1]), actions[|actions| - 1])
  }

  /** Nodes with different NAMEs that have not begun to claim. */
  predicate Starts(net: Net) {
    && net.last == -1
    && (forall i, j | 0 <= i < j < |net.nodes| :: net.nodes[i].name != net.nodes[j].name)
    && (forall i | 0 <= i < |net.nodes| ::
          net.nodes[i].state == Restart && net.nodes[i].holding == Nothing && net.nodes[i].table == map[] && net.nodes[i].inactive == [])
  }

  predicate Inv(net: Net) {
    && -1 <= net.last < |net.nodes|
    && (forall i, j | 0 <= i < j < |net.nodes| :: net.nodes[i].name != net.nodes[j].name)
    && (forall i | 0 <= i < |net.nodes| :: Consistent(net.nodes[i]) && Placed(net.nodes[i]))
    && (forall i, j | 0 <= i < |net.nodes| && 0 <= j < |net.nodes| && Clash(net, i, j) ::
          i == net.last || (j == net.last && net.nodes[i].state == SendReclaimAddressOnRequest))
    && (net.last >= 0 && net.nodes[net.last].holding.Holds? ==> net.nodes[net.last].InTable(net.nodes[net.last].name))
  }

  lemma ClaimKeeps(net: Net, i: nat, expired: bool, answers: seq<bool>)
    requires Inv(net) && i < |net.nodes| && Update(net.nodes[i], expired, answers).sent.Claim? && MayClaim(net, i)
    ensures Inv(Next(net, UpdateNode(i, expired, answers)))
  {
    hide OnClaim, Update, Consistent, Placed;
    var u := Update(net.nodes[i], expired, answers);
    var net' := Next(net, UpdateNode(i, expired, answers));
    UpdateEffect(net.nodes[i], expired, answers);
    forall j | 0 <= j < |net.nodes| && j != i
      ensures net'.nodes[j] == OnClaim(net.nodes[j], u.node.name, u.sent.a)
      ensures net'.nodes[j].name == net.nodes[j].name && Consistent(net'.nodes[j]) && Placed(net'.nodes[j])
      ensures net'.nodes[j].holding == net.nodes[j].holding || net'.nodes[j].holding == Nothing
      ensures net'.nodes[j].holding == Holds(u.sent.a) ==> net'.nodes[j].state == SendReclaimAddressOnRequest
    {
      OnClaimEffect(net.nodes[j], u.node.name, u.sent.a);
      OnClaimPlaces(net.nodes[j], u.node.name, u.sent.a);
    }
    forall j, k | 0 <= j < |net.nodes| && 0 <= k < |net.nodes| && j != i && k != i
      ensures !Clash(net', j, k)
    {
      assert Clash(net', j, k) ==> Clash(net, j, k) && Clash(net, k, j);
    }
    forall j, k | 0 <= j < |net.nodes| && 0 <= k < |net.nodes| && Clash(net', j, k) && j != i
      ensures k == i && net'.nodes[j].state == SendReclaimAddressOnRequest
    {
    }
  }

  /** A step that changes no address and takes back no claim to be repeated. */
  predicate Harmless(n: Node, n': Node) {
    && n'.name == n.name && n'.holding == n.holding && Consistent(n') && Placed(n')
    && (n.holding.Holds? && n.state == SendReclaimAddressOnRequest ==> n'.state == n.state)
    && (n.InTable(n.name) ==> n'.InTable(n.name))
  }

  lemma HarmlessKeeps(net: Net, nodes: seq<Node>)
    requires Inv(net) && |nodes| == |net.nodes|
    requires forall i | 0 <= i < |nodes| :: Harmless(net.nodes[i], nodes[i])
    ensures Inv(net.(nodes := nodes))
  {
    hide Placed, Node.InTable, Consistent;
    forall i, j | 0 <= i < |nodes| && 0 <= j < |nodes| && Clash(net.(nodes := nodes), i, j)
      ensures i == net.last || (j == net.last && nodes[i].state == SendReclaimAddressOnRequest)
    {
      assert Clash(net, i, j);
    }
  }

  lemma OtherKeeps(net: Net, i: nat, expired: bool, answers: seq<bool>)
    requires Inv(net) && i < |net.nodes| && !Update(net.nodes[i], expired, answers).sent.Claim?
    ensures Inv(Next(net, UpdateNode(i, expired, answers)))
  {
    var net' := Next(net, UpdateNode(i, expired, answers));
    forall j | 0 <= j < |net.nodes| ensures Harmless(net.nodes[j], net'.nodes[j]) {
      hide Update, Placed, Inv;
      InvAt(net, j);
      PlacedInAnyState(net.nodes[j], SendReclaimAddressOnRequest);
      UpdateEffect(net.nodes[i], expired, answers);
      UpdateKeepsTable(net.nodes[i], expired, answers);
    }
    hide Update, Inv, Harmless;
    HarmlessKeeps(net, net'.nodes);
  }

  lemma UpdateKeepsTable(n: Node, expired: bool, answers: seq<bool>)
    ensures !Update(n, expired, answers).sent.Claim? ==> Update(n, expired, answers).node.table == n.table
  {
  }

  lemma PruneKeeps(net: Net, i: nat, a: Address)
    requires Inv(net) && i < |net.nodes|
    ensures Inv(Next(net, PruneNode(i, a)))
  {
    hide Prune, Placed;
    PruneEffect(net.nodes[i], a);
    HarmlessKeeps(net, net.nodes[i := Prune(net.nodes[i], a)]);
  }

  lemma NextKeeps(net: Net, action: Action)
    requires Inv(net) && InTurn(net, action)
    ensures Inv(Next(net, action))
  {
    hide Inv;
    match action
    case UpdateNode(i, expired, answers) =>
      if i < |net.nodes| {
        if Update(net.nodes[i], expired, answers).sent.Claim? {
          ClaimKeeps(net, i, expired, answers);
        } else {
          OtherKeeps(net, i, expired, answers);
        }
      }
    case PruneNode(i, a) =>
      if i < |net.nodes| {
        PruneKeeps(net, i, a);
      }
  }

  lemma {:induction false} RunKeeps(net: Net, actions: seq<Action>)
    requires Starts(net) && InTurnRun(net, actions)
    ensures Inv(Run(net, actions))
    decreases |actions|
  {
    hide Next, InTurn;
    if actions != [] {
      RunKeeps(net, actions[..|actions| - 1]);
      NextKeeps(Run(net, actions[..|actions| - 1]), actions[|actions| - 1]);
    }
  }

  /** Two nodes hold the same address only while the one that had it first is about to claim
      it again; in particular never when no node has a claim to repeat. */
  lemma {:induction false} ClashesAreAnswered(net: Net, actions: seq<Action>, i: nat, j: nat)
    requires Starts(net) && InTurnRun(net, actions) && i < |net.nodes| && j < |net.nodes|
    ensures |Run(net, actions).nodes| == |net.nodes|
    ensures var net' := Run(net, actions);
            Clash(net', i, j) ==>
              || (j == net'.last && net'.nodes[i].state == SendReclaimAddressOnRequest)
              || (i == net'.last && net'.nodes[j].state == SendReclaimAddressOnRequest)
  {
    RunKeeps(net, actions);
    RunLength(net, actions);
    var net' := Run(net, actions);
    assert Clash(net', i, j) ==> Clash(net', j, i);
  }

  lemma RunLength(net: Net, actions: seq<Action>)
    ensures |Run(net, actions).nodes| == |net.nodes|
    decreases |actions|
  {
    hide Update, OnClaim, OnRequest, Prune;
    if actions != [] {
      RunLength(net, actions[..|actions| - 1]);
    }
  }

  predicate Apart(net: Net) {
    forall i, j | 0 <= i < |net.nodes| && 0 <= j < |net.nodes| :: !Clash(net, i, j)
  }

  /** With no claim to repeat anywhere, all addresses are different. */
  lemma {:induction false} AddressesAreDistinct(net: Net, actions: seq<Action>)
    requires Starts(net) && InTurnRun(net, actions)
    requires forall i | 0 <= i < |Run(net, actions).nodes| :: Run(net, actions).nodes[i].state != SendReclaimAddressOnRequest
    ensures Apart(Run(net, actions))
  {
    RunLength(net, actions);
    var net' := Run(net, actions);
    forall i: nat, j: nat | i < |net'.nodes| && j < |net'.nodes| ensures !Clash(net', i, j) {
      ClashesAreAnswered(net, actions, i, j);
    }
  }

  /** The first answer to a claim: the node that held the address claims it again. */
  function Answer(net: Net, h: nat): Net { Next(net, UpdateNode(h, false, [true])) }

  lemma ReclaimClaims(n: Node)
    requires n.state == SendReclaimAddressOnRequest && n.holding.Holds?
    ensures Update(n, false, [true]).sent == Claim(n.holding.a)
  {
  }

  lemma AnswerEffect(net: Net, h: nat)
    requires Inv(net) && h < |net.nodes| && net.nodes[h].state == SendReclaimAddressOnRequest && net.nodes[h].holding.Holds?
    requires MayClaim(net, h)
    ensures Inv(Answer(net, h)) && |Answer(net, h).nodes| == |net.nodes| && Answer(net, h).last == h
    ensures Answer(net, h).nodes[h].holding == net.nodes[h].holding && Answer(net, h).nodes[h].name == net.nodes[h].name
    ensures Answer(net, h).nodes[h].state == AddressClaimingComplete
    ensures forall j | 0 <= j < |net.nodes| && j != h ::
              Answer(net, h).nodes[j] == OnClaim(net.nodes[j], net.nodes[h].name, net.nodes[h].holding.a)
  {
    hide Inv, OnClaim, Update, MayClaim;
    ReclaimClaims(net.nodes[h]);
    NextKeeps(net, UpdateNode(h, false, [true]));
    assert Consistent(net.nodes[h]) && Placed(net.nodes[h]) by { InvAt(net, h); }
    UpdateEffect(net.nodes[h], false, [true]);
  }

  lemma InvAt(net: Net, h: nat)
    requires Inv(net) && h < |net.nodes|
    ensures Consistent(net.nodes[h]) && Placed(net.nodes[h])
  {
  }

  lemma ClashMayClaim(net: Net, h: nat, c: nat)
    requires Inv(net) && h < |net.nodes| && c < |net.nodes| && Clash(net, h, c) && net.last == c
    ensures MayClaim(net, h) && net.nodes[h].state == SendReclaimAddressOnRequest
  {
    forall j, k | 0 <= j < |net.nodes| && 0 <= k < |net.nodes| && Clash(net, j, k) && j != net.last
      ensures h == j
    {
      assert j != h ==> Clash(net, j, h);
    }
  }

  /** Nobody but these two can hold the address after the answer. */
  lemma ApartAfterAnswer(net: Net, h: nat, c: nat)
    requires Inv(net) && h < |net.nodes| && c < |net.nodes| && Clash(net, h, c) && net.last == c
    requires MayClaim(net, h) && Inv(Answer(net, h)) && Answer(net, h).last == h && |Answer(net, h).nodes| == |net.nodes|
    requires Answer(net, h).nodes[c].holding == Nothing && Answer(net, h).nodes[h].holding == net.nodes[h].holding
    requires forall j | 0 <= j < |net.nodes| && j != h ::
               Answer(net, h).nodes[j] == OnClaim(net.nodes[j], net.nodes[h].name, net.nodes[h].holding.a)
    ensures Apart(Answer(net, h))
  {
    hide Answer, OnClaim, Placed, Consistent, MayClaim;
    var net1 := Answer(net, h);
    forall k | 0 <= k < |net.nodes| && k != h ensures net1.nodes[k].holding != net1.nodes[h].holding {
      InvAt(net, k);
      OnClaimEffect(net.nodes[k], net.nodes[h].name, net.nodes[h].holding.a);
      assert k != c && net.nodes[k].holding == net.nodes[h].holding ==> Clash(net, k, h);
    }
  }

  /** The last claimant is in its own table, so it gives way to a smaller NAME. */
  lemma LastYields(net: Net, h: nat, c: nat)
    requires Inv(net) && h < |net.nodes| && c < |net.nodes| && Clash(net, h, c) && net.last == c
    ensures var n := OnClaim(net.nodes[c], net.nodes[h].name, net.nodes[h].holding.a);
            && n.name == net.nodes[c].name
            && (n.holding == Nothing || (n.holding == net.nodes[c].holding && n.state == SendReclaimAddressOnRequest
                                         && net.nodes[c].name < net.nodes[h].name))
  {
    hide OnClaim, Node.InTable;
    KeepsIff(net.nodes[c], net.nodes[h].name, net.nodes[h].holding.a);
    OnClaimEffect(net.nodes[c], net.nodes[h].name, net.nodes[h].holding.a);
  }

  /** A clash between `h`, which held the address, and `c`, which claimed it last, is over after
      the answer of `h` or, if `c` keeps the address then, after the answer of `c`, which has
      the smaller NAME in that case. */
  lemma ClashIsResolved(net: Net, h: nat, c: nat)
    requires Inv(net) && h < |net.nodes| && c < |net.nodes| && Clash(net, h, c) && net.last == c
    ensures MayClaim(net, h)
    ensures var net1 := Answer(net, h);
            && |net1.nodes| == |net.nodes|
            && net1.nodes[h].holding == net.nodes[h].holding
            && if net1.nodes[c].holding.Nothing? then Apart(net1)
               else
                 && net.nodes[c].name < net.nodes[h].name && MayClaim(net1, c)
                 && var net2 := Answer(net1, c);
                    |net2.nodes| == |net.nodes| && Apart(net2) && net2.nodes[h].holding == Nothing
                    && net2.nodes[c].holding == net.nodes[c].holding
  {
    hide Answer, OnClaim, Inv, MayClaim, Apart;
    ClashMayClaim(net, h, c);
    AnswerEffect(net, h);
    LastYields(net, h, c);
    var net1 := Answer(net, h);
    if net1.nodes[c].holding.Nothing? {
      ApartAfterAnswer(net, h, c);
    } else {
      ClashMayClaim(net1, c, h);
      AnswerEffect(net1, c);
      LastYields(net1, c, h);
      ApartAfterAnswer(net1, c, h);
    }
  }
}
