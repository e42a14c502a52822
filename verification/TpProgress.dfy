/** A connection of the transport protocol on a bus that loses nothing, with no timeout. A
    transfer can be completed at a point of a run exactly when no reply to the last packet of a
    window or of the message has been refused, since the code never sends it again. Every
    other frame may be refused any number of times, and every step that changes anything
    lowers a bound. */
module TpProgress {
  import opened Widths
  import opened Segmentation
  import opened TpFrames
  import opened Tp
  import opened TpNetwork
  import Runs

  predicate Usable(configs: Configs) {
    configs.tx.packetsPerCts > 0 && configs.rx.packetsPerCts > 0 && configs.tx.framesPerUpdate > 0
  }

  /** Frames arrive once and in order, nobody times out, and the receiver has room. */
  predicate Calm(a: Action) {
    match a
    case TxUpdate(_, expired, _) => !expired
    case RxUpdate(_, expired) => !expired
    case DeliverToRx(i, keep, _, full) => i == 0 && !keep && !full
    case DeliverToTx(i, keep, _) => i == 0 && !keep
    case _ => false
  }

  function WindowEnd(s: Session): nat { s.acknowledged as int + s.ctsPackets as int }

  /** The next packet ends the window or the message of a receiver, so it replies. */
  predicate Replies(s: Session) {
    s.lastSequence as int + 1 == s.TotalPackets() || s.lastSequence as int + 1 == WindowEnd(s)
  }

  /** Besides, no reply to a packet is refused. */
  predicate Lossless(net: Net, a: Action) {
    && Calm(a)
    && (a.DeliverToRx? && net.toRx != [] && net.toRx[0].Data? && net.rx.Receiving? && Replies(net.rx.session) ==>
          Accepts(a.answers, 0))
  }

  predicate CalmRun(actions: seq<Action>) { forall i | 0 <= i < |actions| :: Calm(actions[i]) }

  predicate LosslessRun(net: Net, configs: Configs, actions: seq<Action>)
    decreases |actions|
  {
    actions != [] ==>
      && LosslessRun(net, configs, actions[..|actions| - 1])
      && Lossless(Run(net, configs, actions[..|actions| - 1]), actions[|actions| - 1])
  }

  predicate Quiet(net: Net) { net.toRx == [] && net.toTx == [] }

  predicate Done(net: Net, message: Bytes) {
    net.txFate == Closed(true) && net.delivered == [message] && net.rx.NoSession? && Quiet(net)
  }

  // ---- where a transfer can be -------------------------------------------------------

  datatype Stage = Starting | Requested | MustGrant | Granted | Transferring | Received | Complete

  /** The packets after number `from` that the sender has sent. */
  function InFlight(tx: Session, from: nat): seq<Frame>
    requires from <= tx.lastSequence
  {
    seq(tx.lastSequence - from, i requires 0 <= i < tx.lastSequence - from =>
      Data(false, from + i + 1, Packet(tx.data, from + i)))
  }

  function CtsMax(configs: Configs): u8 { Min(configs.tx.packetsPerCts, configs.rx.packetsPerCts) }

  /** Both sessions exist, agree on the connection, and packets are missing. */
  predicate Established(net: Net, configs: Configs) {
    && net.txFate.Open? && !net.tx.broadcast && net.delivered == []
    && net.rx.Receiving? && !net.rx.session.broadcast && net.rx.session.pgn == net.tx.pgn
    && net.rx.session.ctsMax == CtsMax(configs) && net.rx.session.lastSequence < net.tx.TotalPackets()
  }

  /** What the sender does inside its window, at its end, and at the end of the message. */
  function SenderState(tx: Session): State {
    if tx.lastSequence == tx.TotalPackets() then WaitForEndOfMessageAcknowledge
    else if tx.lastSequence as int == WindowEnd(tx) then WaitForClearToSend
    else SendDataTransferPackets
  }

  predicate Shape(net: Net, message: Bytes, configs: Configs, stage: Stage) {
    match stage
    case Starting =>
      && net.tx == OpenTransmit(net.tx.pgn, message, false, configs.tx) && net.txFate.Open?
      && net.rx.NoSession? && Quiet(net) && net.delivered == []
    case Requested =>
      && net.tx == OpenTransmit(net.tx.pgn, message, false, configs.tx).(state := WaitForClearToSend) && net.txFate.Open?
      && net.rx.NoSession? && net.toTx == [] && net.delivered == []
      && net.toRx == [Rts(|message|, net.tx.TotalPackets(), configs.tx.packetsPerCts, net.tx.pgn)]
    case MustGrant =>
      && Established(net, configs) && Quiet(net) && net.rx.session.state == SendClearToSend
      && net.tx.state == WaitForClearToSend && net.tx.lastSequence == net.rx.session.lastSequence
    case Granted =>
      && Established(net, configs) && net.rx.session.state == WaitForDataTransferPacket
      && net.tx.state == WaitForClearToSend && net.rx.session.acknowledged == net.rx.session.lastSequence == net.tx.lastSequence
      && 0 < net.rx.session.ctsPackets && WindowEnd(net.rx.session) <= net.tx.TotalPackets() && net.toRx == []
      && net.toTx == [Cts(net.rx.session.ctsPackets, Low8(net.tx.lastSequence as int + 1), net.tx.pgn)]
    case Transferring =>
      && Established(net, configs) && net.rx.session.state == WaitForDataTransferPacket
      && net.tx.acknowledged == net.rx.session.acknowledged && net.tx.ctsPackets == net.rx.session.ctsPackets
      && net.tx.acknowledged <= net.rx.session.lastSequence <= net.tx.lastSequence
      && net.tx.lastSequence as int <= WindowEnd(net.tx) <= net.tx.TotalPackets()
      && net.rx.session.lastSequence as int < WindowEnd(net.tx) && net.tx.state == SenderState(net.tx)
      && net.toTx == [] && net.toRx == InFlight(net.tx, net.rx.session.lastSequence)
    case Received =>
      && net.rx.NoSession? && net.txFate.Open? && !net.tx.broadcast && net.tx.state == WaitForEndOfMessageAcknowledge
      && net.tx.lastSequence == net.tx.TotalPackets() && net.delivered == [message]
      && net.toRx == [] && net.toTx == [Eoma(|message|, net.tx.TotalPackets(), net.tx.pgn)]
    case Complete => Done(net, message)
  }

  predicate At(net: Net, message: Bytes, configs: Configs, stage: Stage) {
    Inv(net, message) && Shape(net, message, configs, stage)
  }

  function Weight(stage: Stage): nat {
    match stage
    case Starting => 5
    case Requested => 4
    case MustGrant => 3
    case Granted => 2
    case Transferring => 1
    case Received => 1
    case Complete => 0
  }

  /** How much is left: packets to receive count four, packets to send one. */
  function Left(net: Net, stage: Stage): int {
    var total := net.tx.TotalPackets() as int;
    if stage == Complete then 0
    else
      4 * (if net.rx.Receiving? then total - net.rx.session.lastSequence as int else if stage == Received then 0 else total)
      + (total - net.tx.lastSequence as int) + Weight(stage)
  }

  /** The transfer is at some stage with less than `bound` left. */
  predicate Lower(net: Net, message: Bytes, configs: Configs, bound: int) {
    exists stage :: At(net, message, configs, stage) && Left(net, stage) < bound
  }

  lemma Arrives(net: Net, message: Bytes, configs: Configs, stage: Stage, bound: int)
    requires At(net, message, configs, stage) && Left(net, stage) < bound
    ensures Lower(net, message, configs, bound)
  {
  }

  // ---- every stage moves on ----------------------------------------------------------

  lemma StartMoves(net: Net, message: Bytes, configs: Configs, answers: seq<bool>)
    requires Shape(net, message, configs, Starting)
    ensures var net' := TxAfter(net, SendRts(net.tx, answers));
            if Accepts(answers, 0) then Shape(net', message, configs, Requested) && Left(net', Requested) < Left(net, Starting)
            else net' == net
  {
    hide PacketCount8;
    assert net.toRx + [] == net.toRx;
  }

  /** A receiver that still waits for packets grants at least one of them, and no more. */
  lemma Grants(s: Session)
    requires s.lastSequence < s.TotalPackets() && s.ctsMax > 0
    ensures 0 < CtsPackets(s) && s.lastSequence as int + CtsPackets(s) as int <= s.TotalPackets()
  {
    hide PacketCount8;
  }

  lemma GrantMoves(net: Net, message: Bytes, configs: Configs, answers: seq<bool>)
    requires Shape(net, message, configs, MustGrant) && Usable(configs) && |net.rx.session.data| == |net.tx.data|
    ensures var net' := RxAfter(net, FirstCts(net.rx.session, answers));
            if Accepts(answers, 0) then Shape(net', message, configs, Granted) && Left(net', Granted) < Left(net, MustGrant)
            else net' == net
  {
    hide PacketCount8, CtsPackets;
    Grants(net.rx.session);
    assert net.toTx + [] == net.toTx && net.delivered + [] == net.delivered;
  }

  lemma RequestMoves(net: Net, message: Bytes, configs: Configs, answers: seq<bool>)
    requires Shape(net, message, configs, Requested) && Usable(configs) && IsTpMessage(message)
    ensures var net' := RxOnFrame(net.(toRx := []), configs.rx, net.toRx[0], answers, false);
            var stage := if Accepts(answers, 0) then Granted else MustGrant;
            Shape(net', message, configs, stage) && Left(net', stage) < Left(net, Requested)
  {
    hide CtsPackets;
    var joined := net.(rx := Receiving(OpenReceive(net.tx.pgn, |message|, false, CtsMax(configs))), toRx := []);
    assert net.tx.TotalPackets() > 0;
    GrantMoves(joined, message, configs, answers);
  }

  lemma GrantedMoves(net: Net, message: Bytes, configs: Configs, answers: seq<bool>)
    requires Shape(net, message, configs, Granted)
    ensures var net' := TxOnFrame(net.(toTx := []), net.toTx[0], answers);
            && Shape(net', message, configs, Transferring) && Left(net', Transferring) < Left(net, Granted)
            && net'.rx == net.rx && net'.tx.lastSequence == net.tx.lastSequence
  {
    hide PacketCount8;
    assert net.toRx + [] == net.toRx;
    assert InFlight(net.tx, net.tx.lastSequence) == [];
  }

  lemma ReceivedMoves(net: Net, message: Bytes, configs: Configs, answers: seq<bool>)
    requires Shape(net, message, configs, Received) && message == net.tx.data
    ensures var net' := TxOnFrame(net.(toTx := []), net.toTx[0], answers);
            Shape(net', message, configs, Complete) && Left(net', Complete) < Left(net, Received)
  {
    assert net.toRx + [] == net.toRx;
  }

  lemma CountersInWindow(tx: Session, k: nat)
    requires tx.acknowledged <= tx.lastSequence && tx.lastSequence as int + k <= WindowEnd(tx) <= tx.TotalPackets()
    ensures tx.lastSequence + k <= 0xFF && tx.Advance(k) == tx.(lastSequence := tx.lastSequence + k)
    ensures tx.Advance(k).CtsRemaining() == WindowEnd(tx) - (tx.lastSequence as int + k)
    ensures tx.Advance(k).Remaining() == tx.TotalPackets() - (tx.lastSequence + k)
  {
    hide PacketCount8;
  }

  lemma SendsInWindow(tx: Session, config: Config, answers: seq<bool>)
    requires tx.acknowledged <= tx.lastSequence && tx.lastSequence as int < WindowEnd(tx) <= tx.TotalPackets()
    requires config.framesPerUpdate > 0 && !tx.broadcast && tx.state == SendDataTransferPackets
    ensures var o := SendData(tx, config, answers);
            var k := |o.sent|;
            && tx.lastSequence as int + k <= WindowEnd(tx) && (k == 0 <==> !Accepts(answers, 0)) && o.fate.Open?
            && o.session == tx.(lastSequence := tx.lastSequence + k, state := SenderState(tx.(lastSequence := tx.lastSequence + k)))
            && forall i | 0 <= i < k :: o.sent[i] == Data(false, tx.lastSequence + i + 1, Packet(tx.data, tx.lastSequence as int + i))
  {
    hide PacketCount8;
    hide Session.CtsRemaining, Session.Remaining, Session.Advance;
    CountersInWindow(tx, 0);
    var n := FramesToSend(tx, config);
    var k := Streak(answers, n);
    CountersInWindow(tx, k);
    forall i | 0 <= i < k ensures tx.Advance(i).NextData() == Data(false, tx.lastSequence + i + 1, Packet(tx.data, tx.lastSequence as int + i)) {
      CountersInWindow(tx, i);
    }
  }

  lemma SendingMoves(net: Net, message: Bytes, configs: Configs, answers: seq<bool>)
    requires Shape(net, message, configs, Transferring) && net.tx.state == SendDataTransferPackets && Usable(configs)
    ensures var net' := TxAfter(net, SendData(net.tx, configs.tx, answers));
            && Shape(net', message, configs, Transferring)
            && (if Accepts(answers, 0) then Left(net', Transferring) < Left(net, Transferring) else net' == net)
  {
    hide PacketCount8, SendData;
    SendsInWindow(net.tx, configs.tx, answers);
    var o := SendData(net.tx, configs.tx, answers);
    var from := net.rx.session.lastSequence;
    assert InFlight(net.tx, from) + o.sent == InFlight(o.session, from);
    assert |o.sent| == 0 ==> net.toRx + o.sent == net.toRx;
  }

  /** Whether the packet was the last one of the message, the last one of the window, or neither. */
  function StageAfter(net: Net): Stage
    requires net.rx.Receiving?
  {
    var s := net.rx.session;
    if s.lastSequence as int + 1 == s.TotalPackets() then Received else if Replies(s) then Granted else Transferring
  }

  lemma Takes(net: Net, message: Bytes, configs: Configs)
    requires At(net, message, configs, Transferring) && net.toRx != []
    ensures var s := net.rx.session;
            && 7 * s.lastSequence as int < |s.data| == |message| && s.lastSequence < net.tx.lastSequence
            && net.toRx[0] == Data(false, s.lastSequence + 1, Packet(message, s.lastSequence as int))
            && net.toRx[1..] == InFlight(net.tx, s.lastSequence + 1)
            && var t := Accept(s, s.lastSequence + 1, Packet(message, s.lastSequence as int));
               t.Remaining() == 0 ==> t.data == message
  {
    StoresHonest(net.rx.session, message, net.rx.session.lastSequence + 1);
    SmallCount(|message|);
  }

  lemma TransferMoves(net: Net, message: Bytes, configs: Configs, answers: seq<bool>)
    requires At(net, message, configs, Transferring) && net.toRx != [] && Usable(configs)
    requires Replies(net.rx.session) ==> Accepts(answers, 0)
    ensures var net' := RxOnFrame(net.(toRx := net.toRx[1..]), configs.rx, net.toRx[0], answers, false);
            && Shape(net', message, configs, StageAfter(net)) && Left(net', StageAfter(net)) < Left(net, Transferring)
            && (!Replies(net.rx.session) ==>
                  net'.rx.session == net.rx.session.(data := net'.rx.session.data, lastSequence := net.rx.session.lastSequence + 1))
  {
    hide PacketCount8, CtsPackets, StoreAt, Packet, Prefix;
    Takes(net, message, configs);
    var s := net.rx.session;
    var t := Accept(s, s.lastSequence + 1, Packet(message, s.lastSequence as int));
    assert t.Remaining() == net.tx.TotalPackets() - t.lastSequence;
    assert t.CtsRemaining() == WindowEnd(t) - t.lastSequence as int;
    if t.Remaining() > 0 {
      Grants(t);
    }
    assert net.toTx + [] == net.toTx && net.delivered + [] == net.delivered;
    assert |InFlight(net.tx, net.tx.lastSequence)| == 0;
  }

  // ---- whole runs --------------------------------------------------------------------

  lemma WithoutFirst(ch: seq<Frame>)
    requires ch != []
    ensures Without(ch, 0) == ch[1..] && (|ch| == 1 ==> ch[1..] == []) && OnBus(ch[0]) == ch[0]
  {
    RoundTrip(ch[0]);
  }

  lemma TxUpdateMoves(net: Net, message: Bytes, configs: Configs, stage: Stage, answers: seq<bool>, early: bool)
    requires At(net, message, configs, stage) && Usable(configs)
    ensures var net' := Next(net, configs, TxUpdate(answers, false, early));
            net' == net || Lower(net', message, configs, Left(net, stage))
  {
    hide PacketCount8, Inv, Left;
    var a := TxUpdate(answers, false, early);
    NextKeeps(net, message, configs, a);
    assert net.toRx + [] == net.toRx;
    if stage == Starting {
      StartMoves(net, message, configs, answers);
      if Accepts(answers, 0) { Arrives(Next(net, configs, a), message, configs, Requested, Left(net, stage)); }
    } else if stage == Transferring && net.tx.state == SendDataTransferPackets {
      SendingMoves(net, message, configs, answers);
      if Accepts(answers, 0) { Arrives(Next(net, configs, a), message, configs, stage, Left(net, stage)); }
    }
  }

  lemma RxUpdateMoves(net: Net, message: Bytes, configs: Configs, stage: Stage, answers: seq<bool>)
    requires At(net, message, configs, stage) && Usable(configs)
    ensures var net' := Next(net, configs, RxUpdate(answers, false));
            net' == net || Lower(net', message, configs, Left(net, stage))
  {
    hide PacketCount8, Left, PacketCount;
    var a := RxUpdate(answers, false);
    NextKeeps(net, message, configs, a);
    assert net.toTx + [] == net.toTx && net.delivered + [] == net.delivered;
    if stage == MustGrant {
      GrantMoves(net, message, configs, answers);
      if Accepts(answers, 0) { Arrives(Next(net, configs, a), message, configs, Granted, Left(net, stage)); }
    }
  }

  lemma DeliverToRxMoves(net: Net, message: Bytes, configs: Configs, stage: Stage, answers: seq<bool>)
    requires At(net, message, configs, stage) && Usable(configs) && Lossless(net, DeliverToRx(0, false, answers, false))
    ensures var net' := Next(net, configs, DeliverToRx(0, false, answers, false));
            net' == net || Lower(net', message, configs, Left(net, stage))
  {
    hide PacketCount8, Left, RxOnFrame;
    var a := DeliverToRx(0, false, answers, false);
    NextKeeps(net, message, configs, a);
    if net.toRx != [] {
      WithoutFirst(net.toRx);
      var net' := Next(net, configs, a);
      if stage == Requested {
        RequestMoves(net, message, configs, answers);
        Arrives(net', message, configs, if Accepts(answers, 0) then Granted else MustGrant, Left(net, stage));
      } else {
        Takes(net, message, configs);
        TransferMoves(net, message, configs, answers);
        Arrives(net', message, configs, StageAfter(net), Left(net, stage));
      }
    }
  }

  lemma DeliverToTxMoves(net: Net, message: Bytes, configs: Configs, stage: Stage, answers: seq<bool>)
    requires At(net, message, configs, stage) && Usable(configs)
    ensures var net' := Next(net, configs, DeliverToTx(0, false, answers));
            net' == net || Lower(net', message, configs, Left(net, stage))
  {
    hide PacketCount8, Left, TxOnFrame, PacketCount;
    var a := DeliverToTx(0, false, answers);
    NextKeeps(net, message, configs, a);
    if net.toTx != [] {
      WithoutFirst(net.toTx);
      var net' := Next(net, configs, a);
      if stage == Granted {
        GrantedMoves(net, message, configs, answers);
        Arrives(net', message, configs, Transferring, Left(net, stage));
      } else {
        ReceivedMoves(net, message, configs, answers);
        Arrives(net', message, configs, Complete, Left(net, stage));
      }
    }
  }

  /** Every step of a lossless run changes nothing or brings the transfer closer to its end. */
  lemma StepMoves(net: Net, message: Bytes, configs: Configs, stage: Stage, a: Action)
    requires At(net, message, configs, stage) && Usable(configs) && Lossless(net, a)
    ensures Next(net, configs, a) == net || Lower(Next(net, configs, a), message, configs, Left(net, stage))
  {
    hide Next, Inv, Shape, Left;
    match a
    case TxUpdate(answers, expired, early) => TxUpdateMoves(net, message, configs, stage, answers, early);
    case RxUpdate(answers, expired) => RxUpdateMoves(net, message, configs, stage, answers);
    case DeliverToRx(i, keep, answers, full) => DeliverToRxMoves(net, message, configs, stage, answers);
    case DeliverToTx(i, keep, answers) => DeliverToTxMoves(net, message, configs, stage, answers);
  }

  /** The step that moves a transfer on when its frame is not refused. */
  function Helpful(net: Net, stage: Stage): Action {
    match stage
    case Starting => TxUpdate([true], false, false)
    case Requested => DeliverToRx(0, false, [true], false)
    case MustGrant => RxUpdate([true], false)
    case Granted | Received | Complete => DeliverToTx(0, false, [])
    case Transferring =>
      if net.toRx == [] then TxUpdate([true], false, false) else DeliverToRx(0, false, [true], false)
  }

  /** A delivered frame is in flight no more, unless the same one was sent again. */
  lemma HelpfulDelivers(net: Net, message: Bytes, configs: Configs, stage: Stage)
    requires At(net, message, configs, stage) && Usable(configs)
    requires stage == Requested || stage == Granted || stage == Received
    ensures Lossless(net, Helpful(net, stage)) && Next(net, configs, Helpful(net, stage)) != net
  {
    hide PacketCount8, Prefix, HonestFrames, NoEoma, PacketCount, RxOnFrame, TxOnFrame, InFlight;
    match stage
    case Requested => WithoutFirst(net.toRx); RequestMoves(net, message, configs, [true]);
    case Granted => WithoutFirst(net.toTx); GrantedMoves(net, message, configs, []);
    case Received => WithoutFirst(net.toTx); ReceivedMoves(net, message, configs, []);
  }

  lemma HelpfulTransfers(net: Net, message: Bytes, configs: Configs)
    requires At(net, message, configs, Transferring) && Usable(configs) && net.toRx != []
    ensures Lossless(net, Helpful(net, Transferring)) && Next(net, configs, Helpful(net, Transferring)) != net
  {
    hide PacketCount8, Prefix, HonestFrames, NoEoma, PacketCount, RxOnFrame;
    WithoutFirst(net.toRx);
    Takes(net, message, configs);
    TransferMoves(net, message, configs, [true]);
  }

  lemma HelpfulSends(net: Net, message: Bytes, configs: Configs, stage: Stage)
    requires At(net, message, configs, stage) && Usable(configs)
    requires stage == Starting || stage == MustGrant || (stage == Transferring && net.toRx == [])
    ensures Lossless(net, Helpful(net, stage)) && Next(net, configs, Helpful(net, stage)) != net
  {
    hide PacketCount8, PacketCount, SendData, SendRts, FirstCts;
    match stage
    case Starting => StartMoves(net, message, configs, [true]);
    case MustGrant => GrantMoves(net, message, configs, [true]);
    case Transferring =>
      assert |InFlight(net.tx, net.rx.session.lastSequence)| == 0;
      SendingMoves(net, message, configs, [true]);
  }

  /** The helpful step changes something. */
  lemma HelpfulActs(net: Net, message: Bytes, configs: Configs, stage: Stage)
    requires At(net, message, configs, stage) && Usable(configs) && stage != Complete
    ensures Lossless(net, Helpful(net, stage)) && Next(net, configs, Helpful(net, stage)) != net
  {
    hide At, Next, Helpful;
    if stage == Starting || stage == MustGrant || (stage == Transferring && net.toRx == []) {
      HelpfulSends(net, message, configs, stage);
    } else if stage == Transferring {
      HelpfulTransfers(net, message, configs);
    } else {
      HelpfulDelivers(net, message, configs, stage);
    }
  }

  lemma LeftIsNatural(net: Net, message: Bytes, configs: Configs, stage: Stage)
    requires At(net, message, configs, stage)
    ensures Left(net, stage) >= 0
  {
    hide PacketCount8, PacketCount;
  }

  function Budget(message: Bytes): nat { 5 * PacketCount(|message|) + 5 }

  lemma StepIsPaid(net: Net, message: Bytes, configs: Configs, a: Action, bound: int)
    requires Lower(net, message, configs, bound) && Usable(configs) && Lossless(net, a)
    ensures Lower(Next(net, configs, a), message, configs, if Next(net, configs, a) == net then bound else bound - 1)
  {
    hide Inv, Left, Shape, Next;
    if Next(net, configs, a) != net {
      var stage :| At(net, message, configs, stage) && Left(net, stage) < bound;
      StepMoves(net, message, configs, stage, a);
    }
  }

  lemma StartIsPaid(message: Bytes, pgn: u24, configs: Configs)
    requires IsTpMessage(message)
    ensures Lower(Start(message, pgn, false, configs.tx), message, configs, Budget(message) + 1)
  {
    SmallCount(|message|);
    Arrives(Start(message, pgn, false, configs.tx), message, configs, Starting, Budget(message) + 1);
  }

  lemma LowerIsPositive(net: Net, message: Bytes, configs: Configs, bound: int)
    requires Lower(net, message, configs, bound)
    ensures bound > 0
  {
    hide Inv, Shape, Left;
    var stage :| At(net, message, configs, stage) && Left(net, stage) < bound;
    LeftIsNatural(net, message, configs, stage);
  }

  lemma DoneOrMoves(net: Net, message: Bytes, configs: Configs, bound: int)
    requires Lower(net, message, configs, bound) && Usable(configs)
    ensures Done(net, message)
            || exists a :: Lossless(net, a) && Lower(Next(net, configs, a), message, configs, bound - 1)
  {
    hide Inv, Left, Next;
    var stage :| At(net, message, configs, stage) && Left(net, stage) < bound;
    if stage != Complete {
      HelpfulActs(net, message, configs, stage);
      StepIsPaid(net, message, configs, Helpful(net, stage), bound);
    }
  }

  // ---- a refused reply ---------------------------------------------------------------

  /** Nobody times out and nobody loses an address, but frames may do anything. */
  predicate Patient(a: Action) {
    match a
    case TxUpdate(_, expired, _) => !expired
    case RxUpdate(_, expired) => !expired
    case TxAddressLost | RxAddressLost => false
    case _ => true
  }

  /** Only a timeout can still change this state. */
  ghost predicate Stalled(net: Net, configs: Configs) { forall a | Patient(a) :: Next(net, configs, a) == net }

  lemma BothWait(net: Net, configs: Configs)
    requires Quiet(net)
    requires net.txFate.Open? ==> net.tx.state == WaitForClearToSend || net.tx.state == WaitForEndOfMessageAcknowledge
    requires net.rx.Receiving? ==> net.rx.session.state == WaitForDataTransferPacket
    ensures Stalled(net, configs)
  {
    forall a | Patient(a) ensures Next(net, configs, a) == net {
      assert net.toRx + [] == net.toRx && net.toTx + [] == net.toTx && net.delivered + [] == net.delivered;
    }
  }

  /** When the reply to the last packet of a window is refused, both sides wait for each other. */
  lemma RefusedReplyStalls(net: Net, message: Bytes, configs: Configs, answers: seq<bool>)
    requires At(net, message, configs, Transferring) && net.toRx != [] && StageAfter(net) != Transferring
    requires !Accepts(answers, 0)
    ensures var net' := Next(net, configs, DeliverToRx(0, false, answers, false));
            Stalled(net', configs) && net'.txFate.Open? && !Done(net', message)
  {
    hide PacketCount8, StoreAt, Packet, Prefix;
    Takes(net, message, configs);
    WithoutFirst(net.toRx);
    var s := net.rx.session;
    var t := Accept(s, s.lastSequence + 1, Packet(message, s.lastSequence as int));
    assert t.Remaining() == net.tx.TotalPackets() - t.lastSequence;
    assert t.CtsRemaining() == WindowEnd(t) - t.lastSequence as int;
    assert net.toTx + [] == net.toTx;
    assert |InFlight(net.tx, net.tx.lastSequence)| == 0;
    BothWait(Next(net, configs, DeliverToRx(0, false, answers, false)), configs);
  }

  /** A reply is offered at this stage only. */
  lemma RepliesWhenTransferring(net: Net, message: Bytes, configs: Configs, stage: Stage)
    requires At(net, message, configs, stage) && net.toRx != [] && net.toRx[0].Data? && net.rx.Receiving?
    ensures stage == Transferring
  {
  }

  lemma RefusalStalls(net: Net, message: Bytes, configs: Configs, a: Action, bound: int)
    requires Lower(net, message, configs, bound) && Calm(a) && !Lossless(net, a)
    ensures Stalled(Next(net, configs, a), configs) && !Done(Next(net, configs, a), message)
  {
    hide At, Left, Next, Stalled;
    var stage :| At(net, message, configs, stage) && Left(net, stage) < bound;
    RepliesWhenTransferring(net, message, configs, stage);
    RefusedReplyStalls(net, message, configs, a.answers);
  }

  // ---- all runs ----------------------------------------------------------------------

  /** The network as a system that makes progress. */
  function Progress(message: Bytes, configs: Configs): Runs.System<Net, Action> {
    Runs.System((n: Net, a: Action) => Next(n, configs, a), (a: Action) => Calm(a), (n: Net, a: Action) => Lossless(n, a),
                (n: Net, b: int) => Lower(n, message, configs, b), (n: Net) => Done(n, message))
  }

  lemma Progresses(message: Bytes, configs: Configs)
    requires Usable(configs)
    ensures Runs.Progresses(Progress(message, configs))
  {
    hide Lower, Next, Lossless, Done, Stalled, Calm;
    var sys := Progress(message, configs);
    forall s, a | sys.allowed(s, a) ensures sys.calm(a) {
      LosslessIsCalm(s, a);
    }
    forall s, b | sys.lower(s, b) ensures b > 0 {
      LowerIsPositive(s, message, configs, b);
    }
    forall s, a, b | sys.lower(s, b) && sys.allowed(s, a)
      ensures sys.lower(sys.next(s, a), if sys.next(s, a) == s then b else b - 1)
    {
      StepIsPaid(s, message, configs, a, b);
    }
    forall s, b | sys.lower(s, b) ensures sys.done(s) || Runs.CanLower(sys, s, b) {
      DoneOrMoves(s, message, configs, b);
      if !Done(s, message) {
        var a :| Lossless(s, a) && Lower(Next(s, configs, a), message, configs, b - 1);
        assert sys.allowed(s, a) && sys.lower(sys.next(s, a), b - 1);
      }
    }
    forall s, a, b | sys.lower(s, b) && sys.calm(a) ensures sys.allowed(s, a) || Runs.Stuck(sys, sys.next(s, a)) {
      if !Lossless(s, a) {
        RefusalStalls(s, message, configs, a, b);
        StalledIsStuck(Next(s, configs, a), message, configs);
      }
    }
  }

  lemma LosslessIsCalm(net: Net, a: Action)
    ensures Lossless(net, a) ==> Calm(a)
  {
  }

  lemma StalledIsStuck(net: Net, message: Bytes, configs: Configs)
    requires Stalled(net, configs) && !Done(net, message)
    ensures Runs.Stuck(Progress(message, configs), net)
  {
    hide Next, Done;
    assert forall a | Calm(a) :: Patient(a);
  }

  lemma {:induction false} SameRuns(message: Bytes, configs: Configs, net: Net, actions: seq<Action>)
    ensures Run(net, configs, actions) == Runs.Run(Progress(message, configs), net, actions)
    ensures LosslessRun(net, configs, actions) <==> Runs.Allowed(Progress(message, configs), net, actions)
    ensures CalmRun(actions) <==> Runs.Calm(Progress(message, configs), actions)
    decreases |actions|
  {
    hide Next, Lossless, Calm;
    if actions != [] {
      SameRuns(message, configs, net, actions[..|actions| - 1]);
    }
  }

  /** A lossless connection takes at most five effective steps per packet, and five more. */
  lemma {:induction false} RunsAreBounded(message: Bytes, pgn: u24, configs: Configs, actions: seq<Action>)
    requires IsTpMessage(message) && Usable(configs) && LosslessRun(Start(message, pgn, false, configs.tx), configs, actions)
    ensures Runs.Effective(Progress(message, configs), Start(message, pgn, false, configs.tx), actions) <= Budget(message)
  {
    hide Runs.Progresses, Lower;
    Progresses(message, configs);
    StartIsPaid(message, pgn, configs);
    SameRuns(message, configs, Start(message, pgn, false, configs.tx), actions);
    Runs.RunIsPaid(Progress(message, configs), Start(message, pgn, false, configs.tx), actions, Budget(message) + 1);
  }

  /** With no losses and no timeouts, whatever is refused, a connection can be completed from a
      point of a run, delivered to the receiver and reported as a success to the sender,
      exactly when no reply to the last packet of a window or of the message was refused. */
  lemma {:induction false} CompletesIff(message: Bytes, pgn: u24, configs: Configs, actions: seq<Action>)
    requires IsTpMessage(message) && Usable(configs) && CalmRun(actions)
    ensures var start := Start(message, pgn, false, configs.tx);
            LosslessRun(start, configs, actions)
            <==> exists more :: CalmRun(more) && Done(Run(start, configs, actions + more), message)
  {
    hide Runs.Progresses, Run, LosslessRun, CalmRun, Done, Lower;
    var sys, start := Progress(message, configs), Start(message, pgn, false, configs.tx);
    Progresses(message, configs);
    StartIsPaid(message, pgn, configs);
    SameRuns(message, configs, start, actions);
    Runs.FinishableIff(sys, start, actions, Budget(message) + 1);
    forall more: seq<Action>
      ensures CalmRun(more) && Done(Run(start, configs, actions + more), message)
              <==> Runs.Calm(sys, more) && sys.done(Runs.Run(sys, start, actions + more))
    {
      SameRuns(message, configs, start, more);
      SameRuns(message, configs, start, actions + more);
    }
  }

  // ---- runs that stall ---------------------------------------------------------------

  /** How many packets the first clear to send grants. */
  function FirstWindow(message: Bytes, configs: Configs): u8 {
    CtsPackets(OpenReceive(0, |message|, false, CtsMax(configs)))
  }

  /** The sender and the receiver are inside the first window. */
  predicate InFirstWindow(net: Net, message: Bytes, configs: Configs) {
    && At(net, message, configs, Transferring)
    && net.rx.session.acknowledged == 0 && net.rx.session.ctsPackets == FirstWindow(message, configs)
  }

  lemma OneMoreAction(net: Net, configs: Configs, actions: seq<Action>, a: Action)
    requires LosslessRun(net, configs, actions) && Lossless(Run(net, configs, actions), a)
    ensures LosslessRun(net, configs, actions + [a])
    ensures Run(net, configs, actions + [a]) == Next(Run(net, configs, actions), configs, a)
  {
    assert (actions + [a])[..|actions|] == actions;
  }

  lemma FirstGrant(message: Bytes, configs: Configs, net: Net)
    requires At(net, message, configs, Requested) && Usable(configs)
    ensures var net' := Next(net, configs, DeliverToRx(0, false, [true], false));
            && At(net', message, configs, Granted) && net'.tx == net.tx
            && net'.rx.session.acknowledged == 0 && net'.rx.session.ctsPackets == FirstWindow(message, configs)
  {
    hide RxOnFrame, PacketCount8, Prefix, HonestFrames, NoEoma;
    NextKeeps(net, message, configs, DeliverToRx(0, false, [true], false));
    WithoutFirst(net.toRx);
    RequestMoves(net, message, configs, [true]);
    GrantsFirstWindow(net, message, configs);
  }

  lemma GrantsFirstWindow(net: Net, message: Bytes, configs: Configs)
    requires Shape(net, message, configs, Requested) && Usable(configs) && IsTpMessage(message)
    ensures var net' := RxOnFrame(net.(toRx := []), configs.rx, net.toRx[0], [true], false);
            && net'.rx.Receiving? && net'.tx == net.tx
            && net'.rx.session.acknowledged == 0 && net'.rx.session.ctsPackets == FirstWindow(message, configs)
  {
    hide PacketCount8;
  }

  lemma StartRequests(message: Bytes, pgn: u24, configs: Configs)
    requires IsTpMessage(message)
    ensures At(Next(Start(message, pgn, false, configs.tx), configs, TxUpdate([true], false, false)), message, configs, Requested)
  {
    var start := Start(message, pgn, false, configs.tx);
    NextKeeps(start, message, configs, TxUpdate([true], false, false));
    StartMoves(start, message, configs, [true]);
  }

  lemma GrantArrives(message: Bytes, configs: Configs, net: Net)
    requires At(net, message, configs, Granted) && Usable(configs)
    requires net.rx.session.acknowledged == 0 && net.rx.session.ctsPackets == FirstWindow(message, configs)
    ensures InFirstWindow(Next(net, configs, DeliverToTx(0, false, [])), message, configs)
  {
    hide TxOnFrame, PacketCount8, Prefix, HonestFrames, NoEoma;
    NextKeeps(net, message, configs, DeliverToTx(0, false, []));
    WithoutFirst(net.toTx);
    GrantedMoves(net, message, configs, []);
  }

  /** Three steps lead into the first window. */
  lemma Opens(message: Bytes, pgn: u24, configs: Configs) returns (actions: seq<Action>)
    requires IsTpMessage(message) && Usable(configs)
    ensures var start := Start(message, pgn, false, configs.tx);
            LosslessRun(start, configs, actions) && InFirstWindow(Run(start, configs, actions), message, configs)
  {
    hide Next, PacketCount8, InFirstWindow;
    var start := Start(message, pgn, false, configs.tx);
    var a0, a1, a2 := TxUpdate([true], false, false), DeliverToRx(0, false, [true], false), DeliverToTx(0, false, []);
    OneMoreAction(start, configs, [], a0);
    assert [] + [a0] == [a0];
    StartRequests(message, pgn, configs);
    FirstGrant(message, configs, Run(start, configs, [a0]));
    OneMoreAction(start, configs, [a0], a1);
    GrantArrives(message, configs, Run(start, configs, [a0] + [a1]));
    OneMoreAction(start, configs, [a0] + [a1], a2);
    actions := [a0] + [a1] + [a2];
  }

  /** One step towards the last packet of the window: the sender's, when nothing is in flight,
      and otherwise the receiver's, which offers no reply. */
  lemma StepsInWindow(net: Net, message: Bytes, configs: Configs)
    requires InFirstWindow(net, message, configs) && Usable(configs) && !(net.toRx != [] && Replies(net.rx.session))
    ensures var net' := Next(net, configs, Helpful(net, Transferring));
            && Lossless(net, Helpful(net, Transferring)) && InFirstWindow(net', message, configs)
            && Left(net', Transferring) < Left(net, Transferring)
  {
    hide PacketCount8, Prefix, HonestFrames, NoEoma, PacketCount, RxOnFrame, SendData;
    NextKeeps(net, message, configs, Helpful(net, Transferring));
    if net.toRx == [] {
      assert |InFlight(net.tx, net.rx.session.lastSequence)| == 0;
      SendingMoves(net, message, configs, [true]);
    } else {
      WithoutFirst(net.toRx);
      Takes(net, message, configs);
      TransferMoves(net, message, configs, [true]);
    }
  }

  lemma {:induction false} ReachesReply(message: Bytes, configs: Configs, start: Net, actions: seq<Action>) returns (more: seq<Action>)
    requires LosslessRun(start, configs, actions) && Usable(configs) && InFirstWindow(Run(start, configs, actions), message, configs)
    ensures LosslessRun(start, configs, more)
    ensures var here := Run(start, configs, more);
            InFirstWindow(here, message, configs) && here.toRx != [] && Replies(here.rx.session)
    decreases Left(Run(start, configs, actions), Transferring) + 1
  {
    hide Next, Left, Lossless, Replies;
    var here := Run(start, configs, actions);
    LeftIsNatural(here, message, configs, Transferring);
    if here.toRx != [] && Replies(here.rx.session) {
      more := actions;
    } else {
      StepsInWindow(here, message, configs);
      OneMoreAction(start, configs, actions, Helpful(here, Transferring));
      more := ReachesReply(message, configs, start, actions + [Helpful(here, Transferring)]);
    }
  }

  /** For every message and every configuration there is a run in which one refused frame stalls
      the connection: the reply to the last packet of the first window. That reply is a clear
      to send unless the window takes the whole message. */
  lemma {:induction false} OneRefusalStalls(message: Bytes, pgn: u24, configs: Configs)
    requires IsTpMessage(message) && Usable(configs)
    ensures var start := Start(message, pgn, false, configs.tx);
            exists actions ::
              && LosslessRun(start, configs, actions)
              && var here := Run(start, configs, actions);
                 var end := Next(here, configs, DeliverToRx(0, false, [false], false));
                 && here.rx.Receiving? && here.rx.session.lastSequence as int + 1 == FirstWindow(message, configs) as int
                 && Stalled(end, configs) && !Done(end, message)
  {
    hide Next, Stalled, Done, LosslessRun, Run;
    var start := Start(message, pgn, false, configs.tx);
    var first := Opens(message, pgn, configs);
    var actions := ReachesReply(message, configs, start, first);
    LastOfFirstWindow(Run(start, configs, actions), message, configs);
    RefusedReplyStalls(Run(start, configs, actions), message, configs, [false]);
  }

  lemma LastOfFirstWindow(net: Net, message: Bytes, configs: Configs)
    requires InFirstWindow(net, message, configs) && Replies(net.rx.session) && net.toRx != []
    ensures net.rx.session.lastSequence as int + 1 == FirstWindow(message, configs) as int
    ensures StageAfter(net) != Transferring
  {
    hide PacketCount8;
  }
}
