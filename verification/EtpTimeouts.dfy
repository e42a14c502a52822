/** No session of the extended transport protocol waits for ever: from wherever a run has
    come, a side that hears nothing more ends with a failure after a bounded number of updates,
    and tells its partner why. */
module EtpTimeouts {
  import opened Widths
  import opened Segmentation
  import opened EtpFrames
  import opened Etp
  import opened EtpNetwork
  import EtpProgress
  import EtpManagers
  import SessionTable

  predicate Waits(state: State) {
    || state == WaitForClearToSend || state == WaitForDataPacketOffset
    || state == WaitForDataTransferPacket || state == WaitForEndOfMessageAcknowledge
  }

  /** What the partner of a side that gives up is sent. Only a sender that was granted no
      packets at all gives up in silence. */
  function Notice(s: Session, answers: seq<bool>): seq<Frame> {
    if Accepts(answers, 0) && !(s.state == WaitForClearToSend && s.ctsLimit == 0) then [Abort(TIMEOUT, s.pgn)] else []
  }

  /** A waiting sender does nothing until its timeout, which ends the session with a failure. */
  lemma SenderTimesOut(net: Net, configs: Configs, answers: seq<bool>)
    requires net.txFate.Open? && Waits(net.tx.state)
    ensures Next(net, configs, TxUpdate(answers, false)) == net
    ensures Next(net, configs, TxUpdate(answers, true))
            == net.(txFate := Closed(false), toRx := net.toRx + Notice(net.tx, answers))
  {
    assert net.toRx + [] == net.toRx;
  }

  lemma ReceiverTimesOut(net: Net, configs: Configs, answers: seq<bool>)
    requires net.rx.Receiving? && Waits(net.rx.session.state)
    ensures Next(net, configs, RxUpdate(answers, false)) == net
    ensures Next(net, configs, RxUpdate(answers, true))
            == net.(rx := NoSession, toTx := net.toTx + Notice(net.rx.session, answers))
  {
    assert net.toTx + [] == net.toTx && net.delivered + [] == net.delivered;
  }

  // ---- the states a session can be in ------------------------------------------------

  predicate Senders(state: State) {
    || state == SendRequestToSend || state == WaitForClearToSend || state == SendDataPacketOffset
    || state == SendDataTransferPackets || state == WaitForEndOfMessageAcknowledge
  }

  predicate Receivers(state: State) {
    state == SendClearToSend || state == WaitForDataPacketOffset || state == WaitForDataTransferPacket
  }

  predicate InTurn(net: Net) {
    && (net.txFate.Open? ==> Senders(net.tx.state))
    && (net.rx.Receiving? ==> Receivers(net.rx.session.state))
  }

  lemma NextInTurn(net: Net, configs: Configs, a: Action)
    requires InTurn(net)
    ensures InTurn(Next(net, configs, a))
  {
    hide PacketCount, StoreAt;
  }

  lemma {:induction false} RunInTurn(net: Net, configs: Configs, actions: seq<Action>)
    requires InTurn(net)
    ensures InTurn(Run(net, configs, actions))
    decreases |actions|
  {
    if actions != [] {
      RunInTurn(net, configs, actions[..|actions| - 1]);
      NextInTurn(Run(net, configs, actions[..|actions| - 1]), configs, actions[|actions| - 1]);
    }
  }

  // ---- nothing is heard any more -----------------------------------------------------

  /** Every frame offered in one call is accepted: a window has 255 packets at most. */
  function Willing(): seq<bool> { seq(0xFF, i => true) }

  /** The timeout of a state that has one is over at each of these updates. */
  function Expiring(n: nat): seq<Action> { seq(n, i => TxUpdate(Willing(), true)) }

  function RxExpiring(n: nat): seq<Action> { seq(n, i => RxUpdate(Willing(), true)) }

  /** How many such updates a sender still needs at most. */
  function Due(s: Session): nat {
    match s.state
    case SendDataPacketOffset => 257
    case SendDataTransferPackets => if s.DpoRemaining() == 0 then 2 else s.DpoRemaining() + 1
    case SendRequestToSend => 2
    case _ => 1
  }

  lemma WillingStreak(n: nat)
    requires n <= 0xFF
    ensures Streak(Willing(), n) == n
  {
  }

  /** Whatever has wrapped around, sending `k` packets of a window leaves `k` fewer. */
  lemma FewerInWindow(s: Session, k: nat)
    requires k <= s.DpoRemaining()
    ensures s.Advance(k).DpoRemaining() == s.DpoRemaining() - k
  {
    var l, o, a, d := s.lastSequence as int, s.offset as int, s.acknowledged as int, s.dpoPackets as int;
    var before, after := s.LastPacket() as int, s.Advance(k).LastPacket() as int;
    var wraps := (l + k) / 0x100 + 0x100_0000 * ((Low8(l + k) + o) / 0x1_0000_0000 - (l + o) / 0x1_0000_0000);
    assert after == before + k - 0x100 * wraps;
    hide Low8;
    Low8Minus(d, before - a, k, wraps);
  }

  predicate GaveUp(net: Net) {
    net.txFate == Closed(false) && (net.tx.ctsLimit == 0 || (net.toRx != [] && net.toRx[|net.toRx| - 1] == Abort(TIMEOUT, net.tx.pgn)))
  }

  lemma SenderComesCloser(net: Net, configs: Configs)
    requires InTurn(net) && net.txFate.Open? && configs.tx.framesPerUpdate > 0
    ensures var net' := Next(net, configs, TxUpdate(Willing(), true));
            GaveUp(net') || (net'.txFate.Open? && InTurn(net') && Due(net'.tx) < Due(net.tx))
  {
    hide PacketCount;
    NextInTurn(net, configs, TxUpdate(Willing(), true));
    if Waits(net.tx.state) {
      SenderTimesOut(net, configs, Willing());
    } else if net.tx.state == SendDataTransferPackets {
      var k := FramesToSend(net.tx, configs.tx);
      WillingStreak(k);
      FewerInWindow(net.tx, k);
    }
  }

  lemma OneMore(net: Net, configs: Configs, n: nat)
    ensures Run(net, configs, Expiring(n + 1)) == Next(Run(net, configs, Expiring(n)), configs, TxUpdate(Willing(), true))
    ensures Run(net, configs, RxExpiring(n + 1)) == Next(Run(net, configs, RxExpiring(n)), configs, RxUpdate(Willing(), true))
  {
    assert Expiring(n + 1)[..n] == Expiring(n) && RxExpiring(n + 1)[..n] == RxExpiring(n);
  }

  lemma {:induction false} SenderEndsBy(net: Net, configs: Configs, n: nat)
    requires InTurn(net) && net.txFate.Open? && configs.tx.framesPerUpdate > 0
    ensures var here := Run(net, configs, Expiring(n));
            GaveUp(here) || (here.txFate.Open? && InTurn(here) && Due(here.tx) + n <= Due(net.tx))
  {
    hide Next, Due;
    if n > 0 {
      SenderEndsBy(net, configs, n - 1);
      OneMore(net, configs, n - 1);
      var before := Run(net, configs, Expiring(n - 1));
      if before.txFate.Open? {
        SenderComesCloser(before, configs);
      } else {
        ClosedStays(before, configs);
      }
    }
  }

  lemma ClosedStays(net: Net, configs: Configs)
    requires !net.txFate.Open?
    ensures Next(net, configs, TxUpdate(Willing(), true)) == net
  {
  }

  lemma ReceiverEnds(net: Net, configs: Configs)
    requires InTurn(net)
    ensures Run(net, configs, RxExpiring(2)).rx.NoSession?
  {
    OneMore(net, configs, 0);
    OneMore(net, configs, 1);
    var first := Run(net, configs, RxExpiring(1));
    assert RxExpiring(0) == [] && first == Next(net, configs, RxUpdate(Willing(), true));
    if first.rx.Receiving? {
      ReceiverTimesOut(first, configs, Willing());
    }
  }

  /** After any run, whatever was lost, refused or delayed in it, a sender that hears nothing
      more has failed within 257 updates, and its partner was told so unless the sender had
      been granted no packets; a receiver that hears nothing more is gone within two. */
  lemma {:induction false} NobodyWaitsForEver(message: Bytes, pgn: u24, configs: Configs, actions: seq<Action>)
    requires configs.tx.framesPerUpdate > 0
    ensures var here := Run(Start(message, pgn), configs, actions);
            && (here.txFate.Open? ==> GaveUp(Run(here, configs, Expiring(257))))
            && Run(here, configs, RxExpiring(2)).rx.NoSession?
  {
    hide Next, Run, Due, GaveUp;
    RunInTurn(Start(message, pgn), configs, actions);
    var here := Run(Start(message, pgn), configs, actions);
    ReceiverEnds(here, configs);
    if here.txFate.Open? {
      SenderEndsBy(here, configs, 257);
      DueIsBounded(here.tx);
      DueIsBounded(Run(here, configs, Expiring(257)).tx);
    }
  }

  lemma DueIsBounded(s: Session)
    ensures 0 < Due(s) <= 257
  {
  }

  /** A stalled transfer ends with the sender's timeout: it reports a failure, and nothing else
      can happen to it. */
  lemma {:induction false} StalledEnds(message: Bytes, pgn: u24, configs: Configs, actions: seq<Action>, answers: seq<bool>)
    requires EtpProgress.Usable(configs)
    requires EtpProgress.Stalled(Run(Start(message, pgn), configs, actions), message, configs)
    ensures var here := Run(Start(message, pgn), configs, actions);
            Next(here, configs, TxUpdate(answers, true))
            == here.(txFate := Closed(false), toRx := here.toRx + Notice(here.tx, answers))
  {
    hide Run;
    var here := Run(Start(message, pgn), configs, actions);
    RunInTurn(Start(message, pgn), configs, actions);
    var a := TxUpdate(Willing(), false);
    assert EtpProgress.Patient(a) && Next(here, configs, a) == here;
    UnchangedWaits(here, configs);
    SenderTimesOut(here, configs, answers);
  }

  lemma UnchangedWaits(net: Net, configs: Configs)
    requires InTurn(net) && net.txFate.Open? && configs.tx.framesPerUpdate > 0
    requires Next(net, configs, TxUpdate(Willing(), false)) == net
    ensures Waits(net.tx.state)
  {
    hide PacketCount;
    if net.tx.state == SendDataTransferPackets {
      var k := FramesToSend(net.tx, configs.tx);
      WillingStreak(k);
      FewerInWindow(net.tx, k);
    }
  }

  /** A request that is never answered: the grant limit starts at 255, so the partner is sent an
      abort although no connection was ever established. */
  lemma RequestTimesOut(message: Bytes, pgn: u24, configs: Configs, answers: seq<bool>)
    requires Accepts(answers, 0)
    ensures var waiting := Next(Start(message, pgn), configs, TxUpdate(answers, false));
            && waiting.toRx == [Rts(|message|, pgn)] && waiting.txFate.Open?
            && Next(waiting, configs, TxUpdate(answers, true))
               == waiting.(txFate := Closed(false), toRx := [Rts(|message|, pgn), Abort(3, pgn)])
  {
    var waiting := Next(Start(message, pgn), configs, TxUpdate(answers, false));
    SenderTimesOut(waiting, configs, answers);
  }

  // ---- the owner ---------------------------------------------------------------------

  /** A session of the table that waited too long, or whose address is no longer valid, leaves the
      table at the next update, and the owner of a transmit session is told of the failure. */
  lemma OwnerIsTold(s: Session, config: Config, c: EtpManagers.Choice)
    requires !c.sourceValid || !c.destinationValid || (c.expired && Waits(s.state))
    ensures var v := EtpManagers.VerdictOf(s, config, c);
            && !v.stays
            && v.report == (if s.direction == Transmit then SessionTable.Told(false) else SessionTable.Silent)
            && v.sent == (if !c.sourceValid || !c.destinationValid then [] else Notice(s, c.answers))
  {
  }

  /** A session whose addresses are valid stays while its timeout is not over. */
  lemma OthersStay(s: Session, config: Config, c: EtpManagers.Choice)
    requires c.sourceValid && c.destinationValid && !c.expired
    ensures var v := EtpManagers.VerdictOf(s, config, c);
            v.stays && v.report == SessionTable.Silent && (Waits(s.state) ==> v.sent == [])
  {
  }
}
