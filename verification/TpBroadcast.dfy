/** A broadcast of the transport protocol on a bus that loses nothing. There is no flow control
    and no reply, so nothing that is refused and no pause between frames can keep it from
    completing, as long as the receiver does not time out. */
module TpBroadcast {
  import opened Widths
  import opened Segmentation
  import opened TpFrames
  import opened Tp
  import opened TpNetwork
  import Runs

  /** Frames arrive once and in order, the receiver does not time out and has room. */
  predicate Calm(a: Action) {
    match a
    case TxUpdate(_, _, _) => true
    case RxUpdate(_, expired) => !expired
    case DeliverToRx(i, keep, _, full) => i == 0 && !keep && !full
    case DeliverToTx(_, _, _) => true
    case _ => false
  }

  predicate CalmRun(actions: seq<Action>) { forall i | 0 <= i < |actions| :: Calm(actions[i]) }

  predicate Done(net: Net, message: Bytes) {
    net.txFate == Closed(true) && net.delivered == [message] && net.rx.NoSession? && net.toRx == net.toTx == []
  }

  // ---- where a broadcast can be ------------------------------------------------------

  datatype Stage = Unannounced | Announced | Listening | Complete

  /** The packets after number `from` that the sender has sent. */
  function InFlight(tx: Session, from: nat): seq<Frame>
    requires from <= tx.lastSequence
  {
    seq(tx.lastSequence - from, i requires 0 <= i < tx.lastSequence - from =>
      Data(true, from + i + 1, Packet(tx.data, from + i)))
  }

  /** The sender has announced the message, and ends with its last packet. */
  predicate Sending(net: Net) {
    && net.tx.broadcast && net.tx.state == SendDataTransferPackets && net.tx.lastSequence <= net.tx.TotalPackets()
    && net.txFate == (if net.tx.lastSequence == net.tx.TotalPackets() then Closed(true) else Open)
    && net.toTx == [] && net.delivered == []
  }

  predicate Shape(net: Net, message: Bytes, config: Config, stage: Stage) {
    match stage
    case Unannounced =>
      && net.tx == OpenTransmit(net.tx.pgn, message, true, config) && net.txFate.Open?
      && net.rx.NoSession? && net.toRx == net.toTx == [] && net.delivered == []
    case Announced =>
      && Sending(net) && net.rx.NoSession?
      && net.toRx == [Bam(|message|, net.tx.TotalPackets(), net.tx.pgn)] + InFlight(net.tx, 0)
    case Listening =>
      && Sending(net) && net.rx.Receiving?
      && var s := net.rx.session;
         && s.broadcast && s.state == WaitForDataTransferPacket && s.ctsPackets == s.acknowledged == 0
         && s.lastSequence <= net.tx.lastSequence && s.lastSequence < net.tx.TotalPackets()
         && net.toRx == InFlight(net.tx, s.lastSequence)
    case Complete => Done(net, message)
  }

  predicate At(net: Net, message: Bytes, config: Config, stage: Stage) {
    Inv(net, message) && Shape(net, message, config, stage)
  }

  /** How much is left: a packet to send and a packet to receive count one each. */
  function Left(net: Net, stage: Stage): int {
    var total := net.tx.TotalPackets() as int;
    match stage
    case Unannounced => 2 * total + 2
    case Announced => total - net.tx.lastSequence as int + total + 1
    case Listening =>
      total - net.tx.lastSequence as int + (if net.rx.Receiving? then total - net.rx.session.lastSequence as int else 0)
    case Complete => 0
  }

  predicate Lower(net: Net, message: Bytes, config: Config, bound: int) {
    exists stage :: At(net, message, config, stage) && Left(net, stage) < bound
  }

  lemma Arrives(net: Net, message: Bytes, config: Config, stage: Stage, bound: int)
    requires At(net, message, config, stage) && Left(net, stage) < bound
    ensures Lower(net, message, config, bound)
  {
  }

  // ---- every stage moves on ----------------------------------------------------------

  lemma AnnouncementMoves(net: Net, message: Bytes, config: Config, answers: seq<bool>)
    requires Shape(net, message, config, Unannounced) && IsTpMessage(message)
    ensures var net' := TxAfter(net, SendBam(net.tx, answers));
            if Accepts(answers, 0) then Shape(net', message, config, Announced) && Left(net', Announced) < Left(net, Unannounced)
            else net' == net
  {
    SmallCount(|message|);
    assert net.toRx + [] == net.toRx;
    assert net.tx.TotalPackets() > 0;
    hide PacketCount8, PacketCount;
    assert InFlight(net.tx, 0) == [];
  }

  /** One packet goes out unless it is refused, and the last one ends the session. */
  lemma SendsOne(tx: Session, config: Config, answers: seq<bool>)
    requires tx.broadcast && tx.lastSequence < tx.TotalPackets()
    ensures var o := SendData(tx, config, answers);
            if Accepts(answers, 0) then
              && o.session == tx.(lastSequence := tx.lastSequence + 1)
              && o.sent == [Data(true, tx.lastSequence + 1, Packet(tx.data, tx.lastSequence))] && o.delivered == []
              && o.fate == (if tx.lastSequence as int + 1 == tx.TotalPackets() then Closed(true) else Open)
            else o == Stay(tx)
  {
    hide PacketCount8, Packet;
    var k := Streak(answers, 1);
    assert k == if Accepts(answers, 0) then 1 else 0;
    assert tx.Advance(k).lastSequence == tx.lastSequence + k && tx.Advance(0) == tx;
    assert tx.Advance(k).Remaining() == tx.TotalPackets() - tx.Advance(k).lastSequence;
  }

  lemma SendingMoves(net: Net, message: Bytes, config: Config, stage: Stage, answers: seq<bool>)
    requires stage == Announced || stage == Listening
    requires Shape(net, message, config, stage) && net.txFate.Open?
    ensures var net' := TxAfter(net, SendData(net.tx, config, answers));
            if Accepts(answers, 0) then Shape(net', message, config, stage) && Left(net', stage) < Left(net, stage)
            else net' == net
  {
    hide PacketCount8, SendData, Packet;
    SendsOne(net.tx, config, answers);
    var o := SendData(net.tx, config, answers);
    assert net.toRx + [] == net.toRx;
    if Accepts(answers, 0) {
      var from := if stage == Announced then 0 else net.rx.session.lastSequence as nat;
      assert InFlight(net.tx, from) + o.sent == InFlight(o.session, from);
    }
  }

  lemma AnnouncedMoves(net: Net, message: Bytes, config: Config, answers: seq<bool>)
    requires Shape(net, message, config, Announced) && IsTpMessage(message) && net.tx.data == message
    ensures var net' := RxOnFrame(net.(toRx := net.toRx[1..]), config, net.toRx[0], answers, false);
            Shape(net', message, config, Listening) && Left(net', Listening) < Left(net, Announced)
  {
    assert net.toRx[1..] == InFlight(net.tx, 0);
    SmallCount(|message|);
    assert net.tx.TotalPackets() > 0;
  }

  lemma Takes(net: Net, message: Bytes, config: Config)
    requires At(net, message, config, Listening) && net.toRx != []
    ensures var s := net.rx.session;
            && 7 * s.lastSequence as int < |s.data| == |message| && s.lastSequence < net.tx.lastSequence
            && net.toRx[0] == Data(true, s.lastSequence + 1, Packet(message, s.lastSequence as int))
            && net.toRx[1..] == InFlight(net.tx, s.lastSequence + 1)
            && var t := Accept(s, s.lastSequence + 1, Packet(message, s.lastSequence as int));
               t.Remaining() == 0 ==> t.data == message
  {
    StoresHonest(net.rx.session, message, net.rx.session.lastSequence + 1);
    SmallCount(|message|);
  }

  /** The receiver takes the next packet; with the last one the broadcast is complete. */
  lemma ReceivingMoves(net: Net, message: Bytes, config: Config, answers: seq<bool>)
    requires At(net, message, config, Listening) && net.toRx != []
    ensures var net' := RxOnFrame(net.(toRx := net.toRx[1..]), config, net.toRx[0], answers, false);
            var stage := if net.rx.session.lastSequence as int + 1 == net.tx.TotalPackets() then Complete else Listening;
            Shape(net', message, config, stage) && Left(net', stage) < Left(net, Listening)
  {
    hide PacketCount8, StoreAt, Packet, Prefix;
    Takes(net, message, config);
    var s := net.rx.session;
    var t := Accept(s, s.lastSequence + 1, Packet(message, s.lastSequence as int));
    assert t.Remaining() == net.tx.TotalPackets() - t.lastSequence;
    assert t.CtsRemaining() == 0x100 - t.lastSequence;
    assert net.toTx + [] == net.toTx && net.delivered + [] == net.delivered;
    assert |InFlight(net.tx, net.tx.lastSequence)| == 0;
  }

  lemma TxUpdateMoves(net: Net, message: Bytes, configs: Configs, stage: Stage, a: Action)
    requires At(net, message, configs.tx, stage) && a.TxUpdate?
    ensures var net' := Next(net, configs, a);
            net' == net || Lower(net', message, configs.tx, Left(net, stage))
    ensures stage != Complete && net.txFate.Open? && Accepts(a.answers, 0) && !a.early ==> Next(net, configs, a) != net
  {
    hide PacketCount8, PacketCount, Prefix, HonestFrames, NoEoma, SendData;
    NextKeeps(net, message, configs, a);
    var net' := Next(net, configs, a);
    assert net.toRx + [] == net.toRx;
    if stage == Unannounced {
      AnnouncementMoves(net, message, configs.tx, a.answers);
      if Accepts(a.answers, 0) { Arrives(net', message, configs.tx, Announced, Left(net, stage)); }
    } else if stage != Complete && net.txFate.Open? && !a.early {
      SendingMoves(net, message, configs.tx, stage, a.answers);
      if Accepts(a.answers, 0) { Arrives(net', message, configs.tx, stage, Left(net, stage)); }
    }
  }

  lemma DeliverToRxMoves(net: Net, message: Bytes, configs: Configs, stage: Stage, answers: seq<bool>)
    requires At(net, message, configs.tx, stage)
    ensures var net' := Next(net, configs, DeliverToRx(0, false, answers, false));
            if net.toRx == [] then net' == net else Lower(net', message, configs.tx, Left(net, stage))
  {
    hide PacketCount8, PacketCount, Prefix, HonestFrames, NoEoma, RxOnFrame;
    var a := DeliverToRx(0, false, answers, false);
    NextKeeps(net, message, configs, a);
    if net.toRx != [] {
      assert Without(net.toRx, 0) == net.toRx[1..];
      RoundTrip(net.toRx[0]);
      ReceivesAlike(net, configs, answers);
      if stage == Announced {
        AnnouncedMoves(net, message, configs.tx, answers);
        Arrives(Next(net, configs, a), message, configs.tx, Listening, Left(net, stage));
      } else {
        ReceivingMoves(net, message, configs.tx, answers);
        Arrives(Next(net, configs, a), message, configs.tx,
                if net.rx.session.lastSequence as int + 1 == net.tx.TotalPackets() then Complete else Listening, Left(net, stage));
      }
    }
  }

  /** The configuration of the receiver plays no part in a broadcast. */
  lemma ReceivesAlike(net: Net, configs: Configs, answers: seq<bool>)
    requires net.toRx != [] && !net.toRx[0].Rts?
    ensures RxOnFrame(net.(toRx := net.toRx[1..]), configs.rx, net.toRx[0], answers, false)
            == RxOnFrame(net.(toRx := net.toRx[1..]), configs.tx, net.toRx[0], answers, false)
  {
  }

  lemma OthersStay(net: Net, message: Bytes, configs: Configs, stage: Stage, a: Action)
    requires At(net, message, configs.tx, stage) && Calm(a) && (a.RxUpdate? || a.DeliverToTx?)
    ensures Next(net, configs, a) == net
  {
    assert net.toTx + [] == net.toTx && net.delivered + [] == net.delivered;
  }

  /** Every calm step changes nothing or brings the broadcast closer to its end. */
  lemma StepIsPaid(net: Net, message: Bytes, configs: Configs, a: Action, bound: int)
    requires Lower(net, message, configs.tx, bound) && Calm(a)
    ensures Lower(Next(net, configs, a), message, configs.tx, if Next(net, configs, a) == net then bound else bound - 1)
  {
    hide Inv, Left, Shape, Next;
    if Next(net, configs, a) != net {
      var stage :| At(net, message, configs.tx, stage) && Left(net, stage) < bound;
      match a
      case TxUpdate(_, _, _) => TxUpdateMoves(net, message, configs, stage, a);
      case DeliverToRx(_, _, answers, _) => DeliverToRxMoves(net, message, configs, stage, answers);
      case _ => OthersStay(net, message, configs, stage, a);
    }
  }

  /** No stage but the last is stuck. */
  lemma DoneOrMoves(net: Net, message: Bytes, configs: Configs, bound: int)
    requires Lower(net, message, configs.tx, bound)
    ensures Done(net, message) || exists a :: Calm(a) && Lower(Next(net, configs, a), message, configs.tx, bound - 1)
  {
    hide Inv, Left, Next;
    var stage :| At(net, message, configs.tx, stage) && Left(net, stage) < bound;
    if stage != Complete {
      var a := if net.toRx == [] then TxUpdate([true], false, false) else DeliverToRx(0, false, [true], false);
      assert Calm(a);
      if net.toRx == [] {
        NothingInFlight(net, message, configs.tx, stage);
        TxUpdateMoves(net, message, configs, stage, a);
      } else {
        DeliverToRxMoves(net, message, configs, stage, [true]);
      }
    }
  }

  /** With nothing in flight it is the sender's turn. */
  lemma NothingInFlight(net: Net, message: Bytes, config: Config, stage: Stage)
    requires At(net, message, config, stage) && stage != Complete && net.toRx == []
    ensures net.txFate.Open?
  {
    if stage == Listening {
      assert |InFlight(net.tx, net.rx.session.lastSequence)| == 0;
    }
  }

  lemma LowerIsPositive(net: Net, message: Bytes, config: Config, bound: int)
    requires Lower(net, message, config, bound)
    ensures bound > 0
  {
    hide PacketCount8, Inv;
    var stage :| At(net, message, config, stage) && Left(net, stage) < bound;
  }

  // ---- all runs ----------------------------------------------------------------------

  function Budget(message: Bytes): nat { 2 * PacketCount(|message|) + 2 }

  /** The network as a system that makes progress: every calm action is allowed. */
  function Progress(message: Bytes, configs: Configs): Runs.System<Net, Action> {
    Runs.System((n: Net, a: Action) => Next(n, configs, a), (a: Action) => Calm(a), (n: Net, a: Action) => Calm(a),
                (n: Net, b: int) => Lower(n, message, configs.tx, b), (n: Net) => Done(n, message))
  }

  lemma Progresses(message: Bytes, configs: Configs)
    ensures Runs.Progresses(Progress(message, configs))
  {
    hide Lower, Next, Done, Calm;
    var sys := Progress(message, configs);
    forall s, b | sys.lower(s, b) ensures b > 0 {
      LowerIsPositive(s, message, configs.tx, b);
    }
    forall s, a, b | sys.lower(s, b) && sys.allowed(s, a)
      ensures sys.lower(sys.next(s, a), if sys.next(s, a) == s then b else b - 1)
    {
      StepIsPaid(s, message, configs, a, b);
    }
    forall s, b | sys.lower(s, b) ensures sys.done(s) || Runs.CanLower(sys, s, b) {
      DoneOrMoves(s, message, configs, b);
      if !Done(s, message) {
        var a :| Calm(a) && Lower(Next(s, configs, a), message, configs.tx, b - 1);
        assert sys.allowed(s, a) && sys.lower(sys.next(s, a), b - 1);
      }
    }
  }

  lemma StartIsPaid(message: Bytes, pgn: u24, configs: Configs)
    requires IsTpMessage(message)
    ensures Lower(Start(message, pgn, true, configs.tx), message, configs.tx, Budget(message) + 1)
  {
    SmallCount(|message|);
    Arrives(Start(message, pgn, true, configs.tx), message, configs.tx, Unannounced, Budget(message) + 1);
  }

  lemma {:induction false} SameRuns(message: Bytes, configs: Configs, net: Net, actions: seq<Action>)
    ensures Run(net, configs, actions) == Runs.Run(Progress(message, configs), net, actions)
    ensures CalmRun(actions) <==> Runs.Allowed(Progress(message, configs), net, actions)
    decreases |actions|
  {
    hide Next, Calm;
    if actions != [] {
      SameRuns(message, configs, net, actions[..|actions| - 1]);
    }
  }

  /** A broadcast takes at most two effective steps per packet, and two more. */
  lemma {:induction false} RunsAreBounded(message: Bytes, pgn: u24, configs: Configs, actions: seq<Action>)
    requires IsTpMessage(message) && CalmRun(actions)
    ensures Runs.Effective(Progress(message, configs), Start(message, pgn, true, configs.tx), actions) <= Budget(message)
  {
    hide Runs.Progresses, Lower;
    Progresses(message, configs);
    StartIsPaid(message, pgn, configs);
    SameRuns(message, configs, Start(message, pgn, true, configs.tx), actions);
    Runs.RunIsPaid(Progress(message, configs), Start(message, pgn, true, configs.tx), actions, Budget(message) + 1);
  }

  /** From every point of a calm run, whatever was refused and however the sender pauses, the
      broadcast can be completed: delivered to the receiver and ended by the sender. */
  lemma {:induction false} Completes(message: Bytes, pgn: u24, configs: Configs, actions: seq<Action>)
    requires IsTpMessage(message) && CalmRun(actions)
    ensures exists more :: CalmRun(more) && Done(Run(Start(message, pgn, true, configs.tx), configs, actions + more), message)
  {
    hide Runs.Progresses, Run, CalmRun, Done, Lower;
    var sys, start := Progress(message, configs), Start(message, pgn, true, configs.tx);
    Progresses(message, configs);
    StartIsPaid(message, pgn, configs);
    SameRuns(message, configs, start, actions);
    Runs.RunIsPaid(sys, start, actions, Budget(message) + 1);
    var more := Runs.CanFinish(sys, start, actions, Budget(message) + 1 - Runs.Effective(sys, start, actions));
    SameRuns(message, configs, start, actions + more);
    RestIsCalm(actions, more);
  }

  lemma RestIsCalm(actions: seq<Action>, more: seq<Action>)
    requires CalmRun(actions + more)
    ensures CalmRun(more)
  {
    assert forall i | 0 <= i < |more| :: more[i] == (actions + more)[|actions| + i];
  }
}
