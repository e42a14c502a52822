/** No session of the transport protocol waits for ever: from wherever a run has come, a side
    that hears nothing more ends after a bounded number of updates. A connection ends with a
    failure and tells the partner why, a broadcast is sent to its end. */
module TpTimeouts {
  import opened Widths
  import opened Segmentation
  import opened TpFrames
  import opened Tp
  import opened TpNetwork
  import TpProgress
  import TpManagers
  import SessionTable

  predicate Waits(state: State) {
    state == WaitForClearToSend || state == WaitForDataTransferPacket || state == WaitForEndOfMessageAcknowledge
  }

  /** What the partner of a side that gives up is sent. A broadcast has no partner, and a
      sender that was granted no packets yet gives up in silence. */
  function Notice(s: Session, answers: seq<bool>): seq<Frame> {
    if Accepts(answers, 0) && !s.broadcast && !(s.state == WaitForClearToSend && s.ctsPackets == 0)
    then [Abort(TIMEOUT, s.pgn)]
    else []
  }

  /** A waiting sender does nothing until its timeout, which ends the session with a failure. */
  lemma SenderTimesOut(net: Net, configs: Configs, answers: seq<bool>, early: bool)
    requires net.txFate.Open? && Waits(net.tx.state)
    ensures Next(net, configs, TxUpdate(answers, false, early)) == net
    ensures Next(net, configs, TxUpdate(answers, true, early))
            == net.(txFate := Closed(false), toRx := net.toRx + Notice(net.tx, answers))
  {
    assert net.toRx + [] == net.toRx;
  }

  lemma ReceiverTimesOut(net: Net, configs: Configs, answers: seq<bool>)
    requires net.rx.Receiving? && Waits(net.rx.session.state)
    ensures Next(net, configs, RxUpdate(answers, false)) == net
    ensures Next(net, configs, RxUpdate(answers, true))
            == net.(rx := NoSession, toTx := net.toTx + Notice(net.rx.session, answers))
  {
    assert net.toTx + [] == net.toTx && net.delivered + [] == net.delivered;
  }

  // ---- the states a session can be in ------------------------------------------------

  predicate Senders(s: Session) {
    if s.broadcast then s.state == SendBroadcastAnnounce || s.state == SendDataTransferPackets
    else s.state == SendRequestToSend || s.state == WaitForClearToSend || s.state == SendDataTransferPackets
         || s.state == WaitForEndOfMessageAcknowledge
  }

  predicate InTurn(net: Net) {
    && (net.txFate.Open? ==> Senders(net.tx))
    && (net.rx.Receiving? ==> net.rx.session.state == SendClearToSend || net.rx.session.state == WaitForDataTransferPacket)
  }

  lemma NextInTurn(net: Net, configs: Configs, a: Action)
    requires InTurn(net)
    ensures InTurn(Next(net, configs, a)) && Next(net, configs, a).tx.broadcast == net.tx.broadcast
  {
    hide PacketCount8, Update, RxOnFrame, TxOnFrame;
    match a
    case TxUpdate(answers, expired, early) => UpdateInTurn(net.tx, configs.tx, answers, expired, early);
    case RxUpdate(answers, expired) =>
      if net.rx.Receiving? {
        UpdateInTurn(net.rx.session, configs.rx, answers, expired, false);
      }
    case DeliverToTx(i, keep, answers) =>
      if i < |net.toTx| {
        TxFrameInTurn(if keep then net else net.(toTx := Without(net.toTx, i)), OnBus(net.toTx[i]), answers);
      }
    case DeliverToRx(i, keep, answers, full) =>
      if i < |net.toRx| {
        RxFrameInTurn(if keep then net else net.(toRx := Without(net.toRx, i)), configs.rx, OnBus(net.toRx[i]), answers, full);
      }
    case _ =>
  }

  lemma TxFrameInTurn(net: Net, frame: Frame, answers: seq<bool>)
    requires InTurn(net)
    ensures InTurn(TxOnFrame(net, frame, answers)) && TxOnFrame(net, frame, answers).tx.broadcast == net.tx.broadcast
  {
    hide PacketCount8;
  }

  lemma RxFrameInTurn(net: Net, config: Config, frame: Frame, answers: seq<bool>, full: bool)
    requires InTurn(net)
    ensures InTurn(RxOnFrame(net, config, frame, answers, full))
    ensures RxOnFrame(net, config, frame, answers, full).tx == net.tx
  {
    hide PacketCount8, StoreAt;
  }

  lemma UpdateInTurn(s: Session, config: Config, answers: seq<bool>, expired: bool, early: bool)
    ensures var o := Update(s, config, answers, expired, early);
            && o.session.broadcast == s.broadcast
            && (Senders(s) && o.fate.Open? ==> Senders(o.session))
            && (s.state == SendClearToSend || s.state == WaitForDataTransferPacket ==> o.session.state in {SendClearToSend, WaitForDataTransferPacket})
  {
    hide PacketCount8, Session.NextData;
  }

  lemma {:induction false} RunInTurn(net: Net, configs: Configs, actions: seq<Action>)
    requires InTurn(net)
    ensures InTurn(Run(net, configs, actions)) && Run(net, configs, actions).tx.broadcast == net.tx.broadcast
    decreases |actions|
  {
    if actions != [] {
      RunInTurn(net, configs, actions[..|actions| - 1]);
      NextInTurn(Run(net, configs, actions[..|actions| - 1]), configs, actions[|actions| - 1]);
    }
  }

  // ---- nothing is heard any more -----------------------------------------------------

  /** Every frame offered in one call is accepted: a window has 255 packets at most. */
  function Willing(): seq<bool> { seq(0xFF, i => true) }

  /** At each of these updates the timeout of a state that has one is over, and so is the pause
      between two frames of a broadcast. */
  function Expiring(n: nat): seq<Action> { seq(n, i => TxUpdate(Willing(), true, false)) }

  function RxExpiring(n: nat): seq<Action> { seq(n, i => RxUpdate(Willing(), true)) }

  /** How many such updates a sender still needs at most. */
  function Due(s: Session): nat {
    match s.state
    case SendBroadcastAnnounce => 257
    case SendDataTransferPackets =>
      if s.broadcast then if s.Remaining() == 0 then 256 else s.Remaining()
      else if s.CtsRemaining() == 0 then 2 else s.CtsRemaining() + 1
    case SendRequestToSend => 2
    case _ => 1
  }

  lemma WillingStreak(n: nat)
    requires n <= 0xFF
    ensures Streak(Willing(), n) == n
  {
  }

  /** Whatever has wrapped around, sending `k` packets leaves `k` fewer, modulo 256. */
  lemma Fewer(s: Session, k: nat)
    ensures s.Advance(k).Remaining() == Low8(s.Remaining() as int - k)
    ensures s.Advance(k).CtsRemaining() == Low8(s.CtsRemaining() as int - k)
  {
    hide PacketCount8, Low8;
    var l := s.lastSequence as int;
    var wraps := (l + k) / 0x100;
    Low8Is(l, k, wraps);
    Low8Minus(s.TotalPackets(), l, k, wraps);
    Low8Minus(s.ctsPackets, l - s.acknowledged as int, k, wraps);
  }

  lemma Low8Is(l: int, k: nat, wraps: int)
    requires 0 <= l < 0x100 && wraps == (l + k) / 0x100
    ensures Low8(l) == l && Low8(l + k) == l + k - 0x100 * wraps && Low8(l + k - 0x100 * wraps) == l + k - 0x100 * wraps
  {
  }

  /** The sender has ended: a broadcast with all its frames out, a connection with a failure. */
  predicate Ended(net: Net) {
    if net.tx.broadcast then net.txFate == Closed(true) && net.tx.lastSequence == net.tx.TotalPackets()
    else
      && net.txFate == Closed(false)
      && (net.tx.ctsPackets == 0 || (net.toRx != [] && net.toRx[|net.toRx| - 1] == Abort(TIMEOUT, net.tx.pgn)))
  }

  lemma SenderComesCloser(net: Net, configs: Configs)
    requires InTurn(net) && net.txFate.Open? && configs.tx.framesPerUpdate > 0
    ensures var net' := Next(net, configs, TxUpdate(Willing(), true, false));
            Ended(net') || (net'.txFate.Open? && InTurn(net') && Due(net'.tx) < Due(net.tx))
  {
    hide PacketCount8;
    NextInTurn(net, configs, TxUpdate(Willing(), true, false));
    if Waits(net.tx.state) {
      SenderTimesOut(net, configs, Willing(), false);
    } else if net.tx.state == SendDataTransferPackets {
      SendingComesCloser(net.tx, configs.tx);
    }
  }

  lemma SendingComesCloser(s: Session, config: Config)
    requires s.state == SendDataTransferPackets && config.framesPerUpdate > 0
    ensures var o := SendData(s, config, Willing());
            && o.session.broadcast == s.broadcast
            && (o.fate.Open? ==> Due(o.session) < Due(s))
            && (!o.fate.Open? ==> s.broadcast && o.fate == Closed(true) && o.session.lastSequence == o.session.TotalPackets())
  {
    hide PacketCount8, Session.NextData, Session.Remaining, Session.CtsRemaining, Low8, Streak;
    var k := FramesToSend(s, config);
    WillingStreak(k);
    FewerUnwrapped(s, k);
    if s.Advance(k).Remaining() == 0 {
      LastIsTotal(s.Advance(k));
    }
  }

  lemma FewerUnwrapped(s: Session, k: nat)
    ensures k == 1 ==> s.Advance(k).Remaining() == if s.Remaining() == 0 then 0xFF else s.Remaining() - 1
    ensures k <= s.CtsRemaining() ==> s.Advance(k).CtsRemaining() == s.CtsRemaining() - k
  {
    hide Session.Remaining, Session.CtsRemaining;
    Fewer(s, k);
  }

  lemma LastIsTotal(s: Session)
    requires s.Remaining() == 0
    ensures s.lastSequence == s.TotalPackets()
  {
  }

  lemma OneMore(net: Net, configs: Configs, n: nat)
    ensures Run(net, configs, Expiring(n + 1)) == Next(Run(net, configs, Expiring(n)), configs, TxUpdate(Willing(), true, false))
    ensures Run(net, configs, RxExpiring(n + 1)) == Next(Run(net, configs, RxExpiring(n)), configs, RxUpdate(Willing(), true))
  {
    assert Expiring(n + 1)[..n] == Expiring(n) && RxExpiring(n + 1)[..n] == RxExpiring(n);
  }

  lemma {:induction false} SenderEndsBy(net: Net, configs: Configs, n: nat)
    requires InTurn(net) && net.txFate.Open? && configs.tx.framesPerUpdate > 0
    ensures var here := Run(net, configs, Expiring(n));
            Ended(here) || (here.txFate.Open? && InTurn(here) && Due(here.tx) + n <= Due(net.tx))
  {
    hide Next, Due;
    if n > 0 {
      SenderEndsBy(net, configs, n - 1);
      OneMore(net, configs, n - 1);
      var before := Run(net, configs, Expiring(n - 1));
      if before.txFate.Open? {
        SenderComesCloser(before, configs);
      } else {
        ClosedStays(before, configs);
      }
    }
  }

  lemma ClosedStays(net: Net, configs: Configs)
    requires !net.txFate.Open?
    ensures Next(net, configs, TxUpdate(Willing(), true, false)) == net
  {
  }

  lemma ReceiverEnds(net: Net, configs: Configs)
    requires InTurn(net)
    ensures Run(net, configs, RxExpiring(2)).rx.NoSession?
  {
    hide PacketCount8;
    OneMore(net, configs, 0);
    OneMore(net, configs, 1);
    var first := Run(net, configs, RxExpiring(1));
    assert RxExpiring(0) == [] && first == Next(net, configs, RxUpdate(Willing(), true));
    if first.rx.Receiving? {
      ReceiverTimesOut(first, configs, Willing());
    }
  }

  /** After any run, whatever was lost, refused, repeated or delayed in it, a sender that hears
      nothing more has ended within 257 updates, and a receiver is gone within two. */
  lemma {:induction false} NobodyWaitsForEver(message: Bytes, pgn: u24, broadcast: bool, configs: Configs, actions: seq<Action>)
    requires configs.tx.framesPerUpdate > 0
    ensures var here := Run(Start(message, pgn, broadcast, configs.tx), configs, actions);
            && here.tx.broadcast == broadcast
            && (here.txFate.Open? ==> Ended(Run(here, configs, Expiring(257))))
            && Run(here, configs, RxExpiring(2)).rx.NoSession?
  {
    hide Next, Run, Due, Ended;
    var start := Start(message, pgn, broadcast, configs.tx);
    RunInTurn(start, configs, actions);
    var here := Run(start, configs, actions);
    ReceiverEnds(here, configs);
    if here.txFate.Open? {
      SenderEndsBy(here, configs, 257);
      DueIsBounded(here.tx);
      DueIsBounded(Run(here, configs, Expiring(257)).tx);
    }
  }

  lemma DueIsBounded(s: Session)
    ensures 0 < Due(s) <= 257
  {
  }

  /** A stalled connection ends with the sender's timeout, and then with the receiver's. */
  lemma {:induction false} StalledEnds(message: Bytes, pgn: u24, configs: Configs, actions: seq<Action>, answers: seq<bool>, early: bool)
    requires TpProgress.Usable(configs)
    requires var here := Run(Start(message, pgn, false, configs.tx), configs, actions);
             TpProgress.Stalled(here, configs) && here.txFate.Open?
    ensures var here := Run(Start(message, pgn, false, configs.tx), configs, actions);
            && Next(here, configs, TxUpdate(answers, true, early))
               == here.(txFate := Closed(false), toRx := here.toRx + Notice(here.tx, answers))
            && (here.rx.Receiving? ==>
                  Next(here, configs, RxUpdate(answers, true))
                  == here.(rx := NoSession, toTx := here.toTx + Notice(here.rx.session, answers)))
  {
    hide Run, Next;
    var start := Start(message, pgn, false, configs.tx);
    var here := Run(start, configs, actions);
    RunInTurn(start, configs, actions);
    var a, b := TxUpdate(Willing(), false, false), RxUpdate(Willing(), false);
    assert TpProgress.Patient(a) && Next(here, configs, a) == here;
    assert TpProgress.Patient(b) && Next(here, configs, b) == here;
    UnchangedWaits(here, configs);
    SenderTimesOut(here, configs, answers, early);
    if here.rx.Receiving? {
      ReceiverTimesOut(here, configs, answers);
    }
  }

  lemma UnchangedWaits(net: Net, configs: Configs)
    requires InTurn(net) && net.txFate.Open? && !net.tx.broadcast && configs.tx.framesPerUpdate > 0
    requires Next(net, configs, TxUpdate(Willing(), false, false)) == net == Next(net, configs, RxUpdate(Willing(), false))
    ensures Waits(net.tx.state) && (net.rx.Receiving? ==> Waits(net.rx.session.state))
  {
    hide PacketCount8;
    if net.tx.state == SendDataTransferPackets {
      var k := FramesToSend(net.tx, configs.tx);
      WillingStreak(k);
      Fewer(net.tx, k);
    }
  }

  /** The first frame of a message: an announcement to everybody, or a request, which nobody is
      told of when it is never answered. */
  lemma RequestTimesOut(message: Bytes, pgn: u24, broadcast: bool, configs: Configs, answers: seq<bool>)
    requires Accepts(answers, 0) && IsTpMessage(message)
    ensures var first := Next(Start(message, pgn, broadcast, configs.tx), configs, TxUpdate(answers, false, false));
            && first.txFate.Open?
            && first.toRx == [if broadcast then Bam(|message|, PacketCount(|message|), pgn)
                              else Rts(|message|, PacketCount(|message|), configs.tx.packetsPerCts, pgn)]
            && (!broadcast ==> Next(first, configs, TxUpdate(answers, true, false)) == first.(txFate := Closed(false)))
  {
    var first := Next(Start(message, pgn, broadcast, configs.tx), configs, TxUpdate(answers, false, false));
    if !broadcast {
      SenderTimesOut(first, configs, answers, false);
      assert first.toRx + [] == first.toRx;
    }
  }

  // ---- the owner ---------------------------------------------------------------------

  /** A session of the table that waited too long, or whose address is no longer valid, leaves the
      table at the next update, and the owner of a transmit session is told of the failure. */
  lemma OwnerIsTold(s: Session, config: Config, c: TpManagers.Choice)
    requires !c.sourceValid || (!s.broadcast && !c.destinationValid) || (c.expired && Waits(s.state))
    ensures var v := TpManagers.VerdictOf(s, config, c);
            && !v.stays
            && v.report == (if s.direction == Transmit then SessionTable.Told(false) else SessionTable.Silent)
            && v.sent == (if !c.sourceValid || (!s.broadcast && !c.destinationValid) then [] else Notice(s, c.answers))
  {
  }

  /** A session whose addresses are valid stays while its timeout is not over, unless it is a broadcast that ends; a broadcast has no destination that could become invalid. */
  lemma OthersStay(s: Session, config: Config, c: TpManagers.Choice)
    requires c.sourceValid && (s.broadcast || c.destinationValid) && !c.expired && !(s.broadcast && s.state == SendDataTransferPackets)
    ensures var v := TpManagers.VerdictOf(s, config, c);
            v.stays && v.report == SessionTable.Silent && (Waits(s.state) ==> v.sent == [])
  {
  }
}
