/** On a bus that loses nothing and with no timeout, a transfer of the extended transport
    protocol can be completed at a point of a run exactly when the acknowledgement of the last
    packet has not been refused, since the code never sends it again. Every other frame may be
    refused any number of times, and every step that changes anything lowers a bound. */
module EtpProgress {
  import opened Widths
  import opened Segmentation
  import opened EtpFrames
  import opened Etp
  import opened EtpNetwork
  import opened EtpSafety
  import Runs

  predicate Usable(configs: Configs) {
    configs.tx.packetsPerDpo > 0 && configs.rx.packetsPerDpo > 0 && configs.tx.framesPerUpdate > 0
  }

  /** Nothing is lost, nobody times out, and the receiver has room. */
  predicate Calm(a: Action) {
    match a
    case TxUpdate(_, expired) => !expired
    case RxUpdate(_, expired) => !expired
    case DeliverToRx(_, full) => !full
    case DeliverToTx(_) => true
    case _ => false
  }

  /** Besides, the acknowledgement of the last packet is not refused. */
  predicate Lossless(net: Net, configs: Configs, a: Action) {
    Calm(a) && (a.DeliverToRx? && |Next(net, configs, a).delivered| > |net.delivered| ==> Accepts(a.answers, 0))
  }

  predicate CalmRun(actions: seq<Action>) { forall i | 0 <= i < |actions| :: Calm(actions[i]) }

  predicate LosslessRun(net: Net, configs: Configs, actions: seq<Action>)
    decreases |actions|
  {
    actions != [] ==>
      && LosslessRun(net, configs, actions[..|actions| - 1])
      && Lossless(Run(net, configs, actions[..|actions| - 1]), configs, actions[|actions| - 1])
  }

  predicate Done(net: Net, message: Bytes) {
    net.txFate == Closed(true) && net.delivered == [message] && net.rx.NoSession? && net.toRx == net.toTx == []
  }

  // ---- where a transfer can be -------------------------------------------------------

  datatype Stage = Starting | Requested | MustGrant | Granted | MustAnnounce | Announced | Transferring | Received | Complete

  /** The packets of the window after number `from` that the sender has sent. */
  function InFlight(tx: Session, from: nat): seq<Frame>
    requires from <= tx.lastSequence
  {
    seq(tx.lastSequence - from, i requires 0 <= i < tx.lastSequence - from =>
      Data(from + i + 1, Packet(tx.data, tx.offset as int + from + i)))
  }

  predicate Quiet(net: Net) { net.toRx == [] && net.toTx == [] }

  predicate Established(net: Net, configs: Configs) {
    net.rx.Receiving? && net.txFate.Open? && net.rx.session.ctsLimit == configs.rx.packetsPerDpo
  }

  /** What both sessions wait for at a stage and exactly which frames are in flight. */
  predicate Shape(net: Net, message: Bytes, configs: Configs, stage: Stage) {
    match stage
    case Starting => Quiet(net) && net.tx == OpenTransmit(net.tx.pgn, message) && net.txFate.Open? && net.rx.NoSession?
    case Requested =>
      && net.tx == OpenTransmit(net.tx.pgn, message).(state := WaitForClearToSend) && net.txFate.Open?
      && net.rx.NoSession? && net.toRx == [Rts(|message|, net.tx.pgn)] && net.toTx == []
    case MustGrant => Established(net, configs) && Quiet(net) && net.rx.session.state == SendClearToSend
    case Granted =>
      && Established(net, configs) && net.rx.session.state == WaitForDataPacketOffset
      && net.tx.state == WaitForClearToSend && net.toRx == []
      && net.toTx == [Cts(CtsPackets(net.rx.session), Low24(net.rx.session.LastPacket() + 1), net.tx.pgn)]
    case MustAnnounce =>
      && Established(net, configs) && net.rx.session.state == WaitForDataPacketOffset && Quiet(net)
      && net.tx.state == SendDataPacketOffset && net.tx.ctsLimit == CtsPackets(net.rx.session)
    case Announced =>
      && Established(net, configs) && net.rx.session.state == WaitForDataPacketOffset && net.toTx == []
      && 0 < net.tx.dpoPackets <= net.rx.session.ctsLimit
      && net.toRx == [Dpo(net.tx.dpoPackets, Low24(net.tx.offset), net.tx.pgn)] + InFlight(net.tx, 0)
    case Transferring =>
      && Established(net, configs) && net.rx.session.state == WaitForDataTransferPacket && net.toTx == []
      && net.rx.session.lastSequence <= net.tx.lastSequence
      && net.toRx == InFlight(net.tx, net.rx.session.lastSequence)
    case Received =>
      && net.rx.NoSession? && net.txFate.Open? && net.tx.state == WaitForEndOfMessageAcknowledge
      && net.tx.LastPacket() == net.tx.TotalPackets()
      && net.toRx == [] && net.toTx == [Eoma(|message|, net.tx.pgn)]
    case Complete => Done(net, message)
  }

  predicate At(net: Net, message: Bytes, configs: Configs, stage: Stage) {
    Inv(net, message) && Shape(net, message, configs, stage)
  }

  function Weight(stage: Stage): nat {
    match stage
    case Starting => 7
    case Requested => 6
    case MustGrant => 5
    case Granted => 4
    case MustAnnounce => 3
    case Announced => 2
    case Transferring => 1
    case Received => 1
    case Complete => 0
  }

  /** How much is left: packets to receive count eight, packets to send one. */
  function Left(net: Net, stage: Stage): int {
    var total := net.tx.TotalPackets() as int;
    if stage == Complete then 0
    else
      8 * (if net.rx.Receiving? then total - net.rx.session.LastPacket() as int else if stage == Received then 0 else total)
      + (total - net.tx.LastPacket() as int) + Weight(stage)
  }

  // ---- every stage moves on ----------------------------------------------------------

  lemma GrantMoves(net: Net, message: Bytes, configs: Configs, answers: seq<bool>)
    requires At(net, message, configs, MustGrant) && Usable(configs)
    ensures var net' := RxAfter(net, SendCts(net.rx.session, answers));
            if Accepts(answers, 0) then At(net', message, configs, Granted) && Left(net', Granted) < Left(net, MustGrant)
            else net' == net
  {
    RxSendsCtsKeeps(net, message, answers);
    assert net.delivered + [] == net.delivered && net.toTx + [] == net.toTx;
  }

  lemma StartMoves(net: Net, message: Bytes, configs: Configs, answers: seq<bool>)
    requires At(net, message, configs, Starting)
    ensures var net' := TxAfter(net, SendRts(net.tx, answers));
            if Accepts(answers, 0) then At(net', message, configs, Requested) && Left(net', Requested) < Left(net, Starting)
            else net' == net
  {
    TxSendsRtsKeeps(net, message, answers);
    assert net.toRx + [] == net.toRx;
  }

  lemma RequestMoves(net: Net, message: Bytes, configs: Configs, answers: seq<bool>)
    requires At(net, message, configs, Requested) && Usable(configs)
    ensures var net' := RxOnFrame(net.(toRx := []), configs.rx, net.toRx[0], answers, false);
            var stage := if Accepts(answers, 0) then Granted else MustGrant;
            At(net', message, configs, stage) && Left(net', stage) < Left(net, Requested)
  {
    DeliverToRxKeeps(net, message, configs.rx, answers, false);
    assert net.toRx[1..] == [];
    var joined := net.(rx := Receiving(OpenReceive(net.tx.pgn, |message|, configs.rx)), toRx := []);
    assert At(joined, message, configs, MustGrant) by {
      var rest := net.(toRx := []);
      PopToRx(net, message);
      RxOnRtsKeeps(rest, message, configs.rx, |message|, net.tx.pgn, [], false);
      assert RxOnRts(rest, configs.rx, |message|, net.tx.pgn, [], false) == joined by {
        assert net.toTx + [] == net.toTx && net.delivered + [] == net.delivered;
      }
    }
    GrantMoves(joined, message, configs, answers);
  }

  lemma GrantedShape(net: Net, message: Bytes, configs: Configs, answers: seq<bool>)
    requires Shape(net, message, configs, Granted)
    requires net.rx.session.LastPacket() < net.tx.TotalPackets() < 0x100_0000 && CtsPackets(net.rx.session) > 0
    ensures var net' := TxOnFrame(net.(toTx := []), net.toTx[0], answers);
            Shape(net', message, configs, MustAnnounce) && Left(net', MustAnnounce) < Left(net, Granted)
  {
    hide PacketCount;
    assert net.toRx + [] == net.toRx;
  }

  lemma GrantedMoves(net: Net, message: Bytes, configs: Configs, answers: seq<bool>)
    requires At(net, message, configs, Granted) && Usable(configs)
    ensures var net' := TxOnFrame(net.(toTx := []), net.toTx[0], answers);
            At(net', message, configs, MustAnnounce) && Left(net', MustAnnounce) < Left(net, Granted)
  {
    DeliverToTxKeeps(net, message, answers);
    assert net.toTx[1..] == [];
    Grants(net, message, configs);
    GrantedShape(net, message, configs, answers);
  }

  /** A receiver that still waits for packets grants at least one of them. */
  lemma Grants(net: Net, message: Bytes, configs: Configs)
    requires Inv(net, message) && Established(net, configs) && Usable(configs)
    ensures net.rx.session.LastPacket() < net.tx.TotalPackets() < 0x100_0000 && CtsPackets(net.rx.session) > 0
    ensures net.rx.session.TotalPackets() == net.tx.TotalPackets() && net.rx.session.pgn == net.tx.pgn
    ensures CtsPackets(net.rx.session) <= net.rx.session.ctsLimit
  {
  }

  lemma AnnounceShape(net: Net, message: Bytes, configs: Configs, answers: seq<bool>)
    requires Shape(net, message, configs, MustAnnounce) && Usable(configs)
    requires net.tx.LastPacket() == net.rx.session.LastPacket() < net.tx.TotalPackets() < 0x100_0000
    requires 0 < CtsPackets(net.rx.session) <= net.rx.session.ctsLimit
    ensures var net' := TxAfter(net, SendDpo(net.tx, configs.tx, answers));
            if Accepts(answers, 0) then Shape(net', message, configs, Announced) && Left(net', Announced) < Left(net, MustAnnounce)
            else net' == net
  {
    hide PacketCount;
    assert net.toRx + [] == net.toRx;
    if Accepts(answers, 0) {
      var tx' := SendDpo(net.tx, configs.tx, answers).session;
      assert InFlight(tx', 0) == [];
      assert tx'.LastPacket() == net.tx.LastPacket();
    }
  }

  lemma AnnounceMoves(net: Net, message: Bytes, configs: Configs, answers: seq<bool>)
    requires At(net, message, configs, MustAnnounce) && Usable(configs)
    ensures var net' := TxAfter(net, SendDpo(net.tx, configs.tx, answers));
            if Accepts(answers, 0) then At(net', message, configs, Announced) && Left(net', Announced) < Left(net, MustAnnounce)
            else net' == net
  {
    TxSendsDpoKeeps(net, message, configs.tx, answers);
    Grants(net, message, configs);
    assert BeforeWindow(net, net.rx.session.LastPacket());
    AnnounceShape(net, message, configs, answers);
  }

  /** Sending packets extends what is in flight. */
  lemma InFlightGrows(tx: Session, tx': Session, sent: seq<Frame>, from: nat)
    requires from <= tx.lastSequence <= tx'.lastSequence && tx' == tx.(lastSequence := tx'.lastSequence, state := tx'.state)
    requires tx'.lastSequence == tx.lastSequence + |sent|
    requires forall i | 0 <= i < |sent| ::
               sent[i] == Data(tx.lastSequence + i + 1, Packet(tx.data, tx.offset as int + tx.lastSequence as int + i))
    ensures InFlight(tx', from) == InFlight(tx, from) + sent
  {
  }

  /** A sender inside a window sends something unless its first frame is refused. */
  lemma SendsSome(tx: Session, config: Config, answers: seq<bool>)
    requires tx.DpoRemaining() > 0 && config.framesPerUpdate > 0
    ensures Streak(answers, FramesToSend(tx, config)) == 0 <==> !Accepts(answers, 0)
  {
  }

  lemma Sends(tx: Session, config: Config, answers: seq<bool>)
    requires tx.offset == tx.acknowledged && tx.lastSequence < tx.dpoPackets && tx.state == SendDataTransferPackets
    requires tx.offset as int + tx.dpoPackets as int <= tx.TotalPackets() < 0x100_0000 && config.framesPerUpdate > 0
    ensures var o := SendData(tx, config, answers);
            && o.session == tx.(lastSequence := o.session.lastSequence, state := o.session.state)
            && o.session.lastSequence == tx.lastSequence as int + |o.sent|
            && (|o.sent| == 0 <==> !Accepts(answers, 0))
            && (|o.sent| == 0 ==> o.session == tx)
  {
    var k := Streak(answers, FramesToSend(tx, config));
    RemainingInWindow(tx);
    SendsSome(tx, config, answers);
    WindowAfterSending(tx, k);
  }

  /** The frames of an outcome are the next packets of the window. */
  predicate SendsNext(tx: Session, o: Outcome) {
    && o.fate.Open? && o.session == tx.(lastSequence := o.session.lastSequence, state := o.session.state)
    && o.session.lastSequence == tx.lastSequence as int + |o.sent|
    && forall i | 0 <= i < |o.sent| ::
         o.sent[i] == Data(tx.lastSequence + i + 1, Packet(tx.data, tx.offset as int + tx.lastSequence as int + i))
  }

  lemma AnnouncedSending(net: Net, message: Bytes, configs: Configs, o: Outcome)
    requires Shape(net, message, configs, Announced) && SendsNext(net.tx, o)
    ensures Shape(TxAfter(net, o), message, configs, Announced)
  {
    InFlightGrows(net.tx, o.session, o.sent, 0);
  }

  lemma TransferringSending(net: Net, message: Bytes, configs: Configs, o: Outcome)
    requires Shape(net, message, configs, Transferring) && SendsNext(net.tx, o)
    ensures Shape(TxAfter(net, o), message, configs, Transferring)
  {
    InFlightGrows(net.tx, o.session, o.sent, net.rx.session.lastSequence);
  }

  lemma SendingPays(net: Net, stage: Stage, o: Outcome)
    requires (stage == Announced || stage == Transferring) && net.rx.Receiving?
    requires SendsNext(net.tx, o) && Counters(o.session, net.tx.TotalPackets())
    ensures Left(TxAfter(net, o), stage) == Left(net, stage) - |o.sent|
  {
    assert o.session.LastPacket() == net.tx.LastPacket() + |o.sent|;
  }

  lemma SendingMoves(net: Net, message: Bytes, configs: Configs, stage: Stage, answers: seq<bool>)
    requires stage == Announced || stage == Transferring
    requires At(net, message, configs, stage) && net.tx.state == SendDataTransferPackets && Usable(configs)
    ensures var net' := TxAfter(net, SendData(net.tx, configs.tx, answers));
            && At(net', message, configs, stage)
            && (Accepts(answers, 0) ==> Left(net', stage) < Left(net, stage))
            && (!Accepts(answers, 0) ==> net' == net)
  {
    hide PacketCount;
    var o := SendData(net.tx, configs.tx, answers);
    TxSendsDataKeeps(net, message, configs.tx, answers);
    WithinStage(net, message, configs, stage);
    Sends(net.tx, configs.tx, answers);
    SentPackets(net.tx, configs.tx, answers);
    assert SendsNext(net.tx, o);
    SendingPays(net, stage, o);
    if stage == Announced {
      AnnouncedSending(net, message, configs, o);
    } else {
      TransferringSending(net, message, configs, o);
    }
    assert |o.sent| == 0 ==> net.toRx + o.sent == net.toRx;
  }

  lemma WithinStage(net: Net, message: Bytes, configs: Configs, stage: Stage)
    requires stage == Announced || stage == Transferring
    requires At(net, message, configs, stage)
    ensures WithinWindow(net, net.tx.offset) && net.tx.TotalPackets() < 0x100_0000
    ensures net.tx.dpoPackets > 0 && net.rx.session.acknowledged == net.tx.offset
    ensures stage == Announced ==> net.rx.session.LastPacket() == net.tx.offset
  {
    if stage == Announced {
      assert InWindow(net.toRx[0]);
    }
  }

  lemma AnnouncedShape(net: Net, message: Bytes, configs: Configs, answers: seq<bool>)
    requires Shape(net, message, configs, Announced) && net.rx.session.pgn == net.tx.pgn
    requires net.tx.offset == net.rx.session.acknowledged == net.rx.session.LastPacket() < 0x100_0000
    ensures var net' := RxOnFrame(net.(toRx := net.toRx[1..]), configs.rx, net.toRx[0], answers, false);
            Shape(net', message, configs, Transferring) && Left(net', Transferring) < Left(net, Announced)
  {
    assert net.toRx[1..] == InFlight(net.tx, 0);
    assert net.toTx + [] == net.toTx;
  }

  lemma AnnouncedMoves(net: Net, message: Bytes, configs: Configs, answers: seq<bool>)
    requires At(net, message, configs, Announced)
    ensures var net' := RxOnFrame(net.(toRx := net.toRx[1..]), configs.rx, net.toRx[0], answers, false);
            At(net', message, configs, Transferring) && Left(net', Transferring) < Left(net, Announced)
  {
    DeliverToRxKeeps(net, message, configs.rx, answers, false);
    WithinStage(net, message, configs, Announced);
    AnnouncedShape(net, message, configs, answers);
  }

  /** The receive session after it took the packet at the head of the channel. */
  function Taken(net: Net): Session
    requires net.rx.Receiving? && net.rx.session.lastSequence < 0xFF && DataIndex(net.rx.session) < |net.rx.session.data|
  {
    var rx := net.rx.session;
    Accept(rx, rx.lastSequence + 1, Packet(net.tx.data, rx.LastPacket()))
  }

  lemma NextInFlight(tx: Session, from: nat)
    requires from < tx.lastSequence
    ensures InFlight(tx, from)[0] == Data(from + 1, Packet(tx.data, tx.offset as int + from))
    ensures InFlight(tx, from)[1..] == InFlight(tx, from + 1)
  {
  }

  lemma TransferHead(net: Net, message: Bytes, configs: Configs)
    requires At(net, message, configs, Transferring) && net.toRx != []
    ensures var rx := net.rx.session;
            && rx.lastSequence < net.tx.lastSequence && rx.lastSequence < rx.dpoPackets
            && net.toRx[0] == Data(rx.lastSequence + 1, Packet(message, rx.LastPacket()))
            && net.toRx[1..] == InFlight(net.tx, rx.lastSequence + 1)
            && rx.acknowledged == rx.offset && Counters(rx, rx.TotalPackets())
            && |rx.data| == |message| && rx.LastPacket() < rx.TotalPackets()
            && rx.offset as int + rx.dpoPackets as int < 0x100_0000
            && rx.data[..Filled(|message|, rx.LastPacket())] == message[..Filled(|message|, rx.LastPacket())]
  {
    NextInFlight(net.tx, net.rx.session.lastSequence);
  }

  lemma TransferTakes(net: Net, message: Bytes, configs: Configs, answers: seq<bool>)
    requires At(net, message, configs, Transferring) && net.toRx != []
    ensures net.rx.session.lastSequence < 0xFF && DataIndex(net.rx.session) < |net.rx.session.data|
    ensures var rest := net.(toRx := net.toRx[1..]);
            && RxOnFrame(rest, configs.rx, net.toRx[0], answers, false) == RxAfter(rest, AfterData(Taken(net), answers))
            && rest.toRx == InFlight(net.tx, Taken(net).lastSequence)
            && Stored(rest, message, Taken(net))
  {
    hide PacketCount, InFlight, StoreAt, Packet, Filled, AfterData;
    TransferHead(net, message, configs);
    PopToRx(net, message);
    var rx := net.rx.session;
    var rest := net.(toRx := net.toRx[1..]);
    RxStores(rest, message, rx.lastSequence + 1, Packet(message, rx.LastPacket()));
    StoresNextPacket(rx, message);
    OneMorePacket(rx, Taken(net));
  }

  /** Whether the packet was the last one of the message, the last one of the window, or neither. */
  function StageAfter(t: Session, answers: seq<bool>): Stage {
    if t.Remaining() == 0 then Received
    else if t.DpoRemaining() > 0 then Transferring
    else if Accepts(answers, 0) then Granted
    else MustGrant
  }

  lemma TransferShape(net: Net, message: Bytes, configs: Configs, t: Session, answers: seq<bool>)
    requires Established(net, configs) && net.rx.session.state == WaitForDataTransferPacket && net.toTx == []
    requires t.lastSequence <= net.tx.lastSequence && net.toRx == InFlight(net.tx, t.lastSequence)
    requires t == net.rx.session.(data := t.data, lastSequence := t.lastSequence) && t.pgn == net.tx.pgn
    requires t.LastPacket() == net.rx.session.LastPacket() + 1 <= t.TotalPackets() == net.tx.TotalPackets()
    requires t.Remaining() == t.TotalPackets() - t.LastPacket()
    requires t.Remaining() == 0 ==>
               && Accepts(answers, 0) && t.data == message && net.tx.lastSequence == t.lastSequence
               && net.tx.LastPacket() == net.tx.TotalPackets() && net.tx.state == WaitForEndOfMessageAcknowledge
    requires t.DpoRemaining() == 0 && t.Remaining() > 0 ==>
               && net.tx.lastSequence == t.lastSequence && net.tx.state == WaitForClearToSend
    ensures var net' := RxAfter(net, AfterData(t, answers));
            var stage := StageAfter(t, answers);
            Shape(net', message, configs, stage) && Left(net', stage) < Left(net, Transferring)
  {
    assert net.toTx + [] == net.toTx;
    if net.tx.lastSequence == t.lastSequence {
      assert |InFlight(net.tx, t.lastSequence)| == 0;
    }
  }

  /** At the end of a window and of the message the sender has nothing left to send. */
  lemma SenderWaits(net: Net, message: Bytes, t: Session)
    requires Stored(net, message, t) && net.txFate.Open?
    ensures t.pgn == net.tx.pgn && t.TotalPackets() == net.tx.TotalPackets()
    ensures t.Remaining() == 0 ==>
              && net.tx.lastSequence == t.lastSequence
              && net.tx.LastPacket() == net.tx.TotalPackets() && net.tx.state == WaitForEndOfMessageAcknowledge
    ensures t.DpoRemaining() == 0 && t.Remaining() > 0 ==>
              && net.tx.lastSequence == t.lastSequence && net.tx.state == WaitForClearToSend
  {
    hide Inv, InFlight, PacketCount;
    SenderInWindow(net, message, t);
    assert net.tx.LastPacket() == net.tx.offset as int + net.tx.lastSequence as int;
  }

  lemma SenderInWindow(net: Net, message: Bytes, t: Session)
    requires Stored(net, message, t)
    ensures WithinWindow(net, net.tx.offset) && t.offset == net.tx.offset && t.dpoPackets == net.tx.dpoPackets
    ensures t.pgn == net.tx.pgn && t.TotalPackets() == net.tx.TotalPackets() < 0x100_0000
  {
    hide InFlight, BeforeWindow;
  }

  lemma StoredAll(net: Net, message: Bytes, t: Session)
    requires Stored(net, message, t) && t.Remaining() == 0
    ensures t.data == message
  {
    AllFilled(|message|, t.LastPacket());
  }

  lemma TransferMoves(net: Net, message: Bytes, configs: Configs, answers: seq<bool>)
    requires At(net, message, configs, Transferring) && net.toRx != []
    requires |RxOnFrame(net.(toRx := net.toRx[1..]), configs.rx, net.toRx[0], answers, false).delivered| > |net.delivered|
             ==> Accepts(answers, 0)
    ensures var net' := RxOnFrame(net.(toRx := net.toRx[1..]), configs.rx, net.toRx[0], answers, false);
            exists stage :: At(net', message, configs, stage) && Left(net', stage) < Left(net, Transferring)
  {
    DeliverToRxKeeps(net, message, configs.rx, answers, false);
    TransferTakes(net, message, configs, answers);
    var rest := net.(toRx := net.toRx[1..]);
    var t := Taken(net);
    SenderWaits(rest, message, t);
    if t.Remaining() == 0 {
      StoredAll(rest, message, t);
    }
    assert t.Remaining() == 0 ==> Accepts(answers, 0);
    TransferShape(rest, message, configs, t, answers);
    assert At(RxAfter(rest, AfterData(t, answers)), message, configs, StageAfter(t, answers));
  }

  lemma ReceivedMoves(net: Net, message: Bytes, configs: Configs, answers: seq<bool>)
    requires At(net, message, configs, Received)
    ensures var net' := TxOnFrame(net.(toTx := []), net.toTx[0], answers);
            At(net', message, configs, Complete) && Left(net', Complete) < Left(net, Received)
  {
    DeliverToTxKeeps(net, message, answers);
    assert net.toTx[1..] == [];
    assert !NoEoma(net.toTx) by { assert net.toTx[0].Eoma?; }
    assert net.toRx + [] == net.toRx;
  }

  // ---- whole runs --------------------------------------------------------------------

  predicate Lower(net: Net, message: Bytes, configs: Configs, bound: int) {
    exists stage :: At(net, message, configs, stage) && Left(net, stage) < bound
  }

  /** The stage at which the transfer arrives is a witness of `Lower`. */
  lemma Arrives(net: Net, message: Bytes, configs: Configs, stage: Stage, bound: int)
    requires At(net, message, configs, stage) && Left(net, stage) < bound
    ensures Lower(net, message, configs, bound)
  {
  }

  /** With both windows idle an update changes nothing. */
  lemma TxUpdateMoves(net: Net, message: Bytes, configs: Configs, stage: Stage, answers: seq<bool>)
    requires At(net, message, configs, stage) && Usable(configs)
    ensures var net' := Next(net, configs, TxUpdate(answers, false));
            net' == net || Lower(net', message, configs, Left(net, stage))
  {
    hide PacketCount;
    var net' := Next(net, configs, TxUpdate(answers, false));
    assert net.toRx + [] == net.toRx;
    match stage
    case Starting =>
      StartMoves(net, message, configs, answers);
      if net' != net { Arrives(net', message, configs, Requested, Left(net, stage)); }
    case MustAnnounce =>
      AnnounceMoves(net, message, configs, answers);
      if net' != net { Arrives(net', message, configs, Announced, Left(net, stage)); }
    case Announced | Transferring =>
      WithinStage(net, message, configs, stage);
      if net.tx.state == SendDataTransferPackets {
        SendingMoves(net, message, configs, stage, answers);
        if net' != net { Arrives(net', message, configs, stage, Left(net, stage)); }
      }
    case _ =>
  }

  lemma RxUpdateMoves(net: Net, message: Bytes, configs: Configs, stage: Stage, answers: seq<bool>)
    requires At(net, message, configs, stage) && Usable(configs)
    ensures var net' := Next(net, configs, RxUpdate(answers, false));
            net' == net || Lower(net', message, configs, Left(net, stage))
  {
    assert net.toTx + [] == net.toTx && net.delivered + [] == net.delivered;
    if stage == MustGrant {
      GrantMoves(net, message, configs, answers);
      if Accepts(answers, 0) {
        Arrives(Next(net, configs, RxUpdate(answers, false)), message, configs, Granted, Left(net, stage));
      }
    }
  }

  lemma DeliverToRxMoves(net: Net, message: Bytes, configs: Configs, stage: Stage, answers: seq<bool>)
    requires At(net, message, configs, stage) && Usable(configs)
    requires Lossless(net, configs, DeliverToRx(answers, false))
    ensures var net' := Next(net, configs, DeliverToRx(answers, false));
            net' == net || Lower(net', message, configs, Left(net, stage))
  {
    hide Inv, Left;
    if net.toRx != [] {
      var net' := Next(net, configs, DeliverToRx(answers, false));
      RoundTrip(net.toRx[0]);
      match stage
      case Requested =>
        assert net.toRx[1..] == [];
        RequestMoves(net, message, configs, answers);
        Arrives(net', message, configs, if Accepts(answers, 0) then Granted else MustGrant, Left(net, stage));
      case Announced =>
        AnnouncedMoves(net, message, configs, answers);
        Arrives(net', message, configs, Transferring, Left(net, stage));
      case Transferring =>
        TransferMoves(net, message, configs, answers);
      case _ =>
    }
  }

  lemma DeliverToTxMoves(net: Net, message: Bytes, configs: Configs, stage: Stage, answers: seq<bool>)
    requires At(net, message, configs, stage) && Usable(configs)
    ensures var net' := Next(net, configs, DeliverToTx(answers));
            net' == net || Lower(net', message, configs, Left(net, stage))
  {
    hide Inv, Left;
    if net.toTx != [] {
      var net' := Next(net, configs, DeliverToTx(answers));
      RoundTrip(net.toTx[0]);
      assert stage == Granted || stage == Received ==> net.toTx[1..] == [];
      match stage
      case Granted =>
        GrantedMoves(net, message, configs, answers);
        Arrives(net', message, configs, MustAnnounce, Left(net, stage));
      case Received =>
        ReceivedMoves(net, message, configs, answers);
        Arrives(net', message, configs, Complete, Left(net, stage));
      case _ =>
    }
  }

  /** Every step of a lossless run changes nothing or brings the transfer closer to its end. */
  lemma StepMoves(net: Net, message: Bytes, configs: Configs, stage: Stage, a: Action)
    requires At(net, message, configs, stage) && Usable(configs) && Lossless(net, configs, a)
    ensures Next(net, configs, a) == net || Lower(Next(net, configs, a), message, configs, Left(net, stage))
  {
    match a
    case TxUpdate(answers, expired) => TxUpdateMoves(net, message, configs, stage, answers);
    case RxUpdate(answers, expired) => RxUpdateMoves(net, message, configs, stage, answers);
    case DeliverToRx(answers, full) => DeliverToRxMoves(net, message, configs, stage, answers);
    case DeliverToTx(answers) => DeliverToTxMoves(net, message, configs, stage, answers);
  }

  /** The step that moves a transfer on when its frame is not refused. */
  function Helpful(net: Net, stage: Stage): Action {
    match stage
    case Starting | MustAnnounce => TxUpdate([true], false)
    case Requested | Announced => DeliverToRx([true], false)
    case MustGrant => RxUpdate([true], false)
    case Granted | Received | Complete => DeliverToTx([])
    case Transferring => if net.toRx == [] then TxUpdate([true], false) else DeliverToRx([true], false)
  }

  /** With nothing in flight in the middle of a window, it is the sender's turn. */
  lemma SenderNotDone(net: Net, message: Bytes, configs: Configs)
    requires At(net, message, configs, Transferring) && net.toRx == []
    ensures net.tx.state == SendDataTransferPackets
  {
    assert |InFlight(net.tx, net.rx.session.lastSequence)| == 0;
    assert net.tx.LastPacket() == net.rx.session.LastPacket();
  }

  lemma HelpfulSends(net: Net, message: Bytes, configs: Configs, stage: Stage)
    requires At(net, message, configs, stage) && Usable(configs)
    requires stage == Starting || stage == MustAnnounce || stage == MustGrant || (stage == Transferring && net.toRx == [])
    ensures Lower(Next(net, configs, Helpful(net, stage)), message, configs, Left(net, stage))
  {
    hide Inv, Left;
    var net' := Next(net, configs, Helpful(net, stage));
    match stage
    case Starting => StartMoves(net, message, configs, [true]); Arrives(net', message, configs, Requested, Left(net, stage));
    case MustAnnounce => AnnounceMoves(net, message, configs, [true]); Arrives(net', message, configs, Announced, Left(net, stage));
    case MustGrant => GrantMoves(net, message, configs, [true]); Arrives(net', message, configs, Granted, Left(net, stage));
    case Transferring =>
      SenderNotDone(net, message, configs);
      SendingMoves(net, message, configs, stage, [true]);
      Arrives(net', message, configs, stage, Left(net, stage));
  }

  lemma HelpfulDelivers(net: Net, message: Bytes, configs: Configs, stage: Stage)
    requires At(net, message, configs, stage) && Usable(configs)
    requires stage == Requested || stage == Announced || stage == Granted || stage == Received
             || (stage == Transferring && net.toRx != [])
    ensures Lower(Next(net, configs, Helpful(net, stage)), message, configs, Left(net, stage))
  {
    hide Inv, Left, PacketCount, RxOnFrame, TxOnFrame;
    var net' := Next(net, configs, Helpful(net, stage));
    if stage == Granted || stage == Received {
      RoundTrip(net.toTx[0]);
      assert net.toTx[1..] == [];
    } else {
      RoundTrip(net.toRx[0]);
      assert stage == Requested ==> net.toRx[1..] == [];
    }
    match stage
    case Requested => RequestMoves(net, message, configs, [true]); Arrives(net', message, configs, Granted, Left(net, stage));
    case Announced => AnnouncedMoves(net, message, configs, [true]); Arrives(net', message, configs, Transferring, Left(net, stage));
    case Transferring => TransferMoves(net, message, configs, [true]);
    case Granted => GrantedMoves(net, message, configs, []); Arrives(net', message, configs, MustAnnounce, Left(net, stage));
    case Received => ReceivedMoves(net, message, configs, []); Arrives(net', message, configs, Complete, Left(net, stage));
  }

  /** No stage but the last is stuck. */
  lemma HelpfulMoves(net: Net, message: Bytes, configs: Configs, stage: Stage)
    requires At(net, message, configs, stage) && Usable(configs) && stage != Complete
    ensures Lossless(net, configs, Helpful(net, stage))
    ensures Lower(Next(net, configs, Helpful(net, stage)), message, configs, Left(net, stage))
  {
    if stage == Starting || stage == MustAnnounce || stage == MustGrant || (stage == Transferring && net.toRx == []) {
      HelpfulSends(net, message, configs, stage);
    } else {
      HelpfulDelivers(net, message, configs, stage);
    }
  }

  lemma LeftIsNatural(net: Net, message: Bytes, configs: Configs, stage: Stage)
    requires At(net, message, configs, stage)
    ensures Left(net, stage) >= 0
  {
    hide PacketCount;
    if stage == Announced || stage == Transferring {
      WithinStage(net, message, configs, stage);
    }
  }

  function Budget(message: Bytes): nat { 9 * PacketCount(|message|) + 7 }

  lemma StepIsPaid(net: Net, message: Bytes, configs: Configs, a: Action, bound: int)
    requires Lower(net, message, configs, bound) && Usable(configs) && Lossless(net, configs, a)
    ensures Lower(Next(net, configs, a), message, configs, if Next(net, configs, a) == net then bound else bound - 1)
  {
    hide Inv, Left;
    if Next(net, configs, a) != net {
      var stage :| At(net, message, configs, stage) && Left(net, stage) < bound;
      StepMoves(net, message, configs, stage, a);
    }
  }

  lemma StartIsPaid(message: Bytes, pgn: u24, configs: Configs)
    requires IsEtpMessage(message)
    ensures Lower(Start(message, pgn), message, configs, Budget(message) + 1)
  {
    Arrives(Start(message, pgn), message, configs, Starting, Budget(message) + 1);
  }

  lemma LowerIsPositive(net: Net, message: Bytes, configs: Configs, bound: int)
    requires Lower(net, message, configs, bound)
    ensures bound > 0
  {
    var stage :| At(net, message, configs, stage) && Left(net, stage) < bound;
    LeftIsNatural(net, message, configs, stage);
  }

  lemma DoneOrMoves(net: Net, message: Bytes, configs: Configs, bound: int)
    requires Lower(net, message, configs, bound) && Usable(configs)
    ensures Done(net, message)
            || exists a :: Lossless(net, configs, a) && Lower(Next(net, configs, a), message, configs, bound - 1)
  {
    hide Inv, Left;
    var stage :| At(net, message, configs, stage) && Left(net, stage) < bound;
    if stage != Complete {
      HelpfulMoves(net, message, configs, stage);
    }
  }

  // ---- a refused acknowledgement -----------------------------------------------------

  /** Nobody times out and nobody loses an address, but frames may do anything. */
  predicate Patient(a: Action) {
    match a
    case TxUpdate(_, expired) => !expired
    case RxUpdate(_, expired) => !expired
    case TxAddressLost | RxAddressLost => false
    case _ => true
  }

  /** The message is delivered, but the sender can only time out. */
  ghost predicate Stalled(net: Net, message: Bytes, configs: Configs) {
    net.delivered == [message] && net.txFate.Open? && forall a | Patient(a) :: Next(net, configs, a) == net
  }

  /** When the acknowledgement of the last packet is refused, nothing is in flight any more and
      nothing will be sent. */
  lemma RefusedAcknowledgementStalls(net: Net, message: Bytes, configs: Configs, answers: seq<bool>)
    requires At(net, message, configs, Transferring) && net.toRx != [] && !Accepts(answers, 0)
    requires Taken(net).Remaining() == 0
    ensures Stalled(RxOnFrame(net.(toRx := net.toRx[1..]), configs.rx, net.toRx[0], answers, false), message, configs)
  {
    hide Inv, InFlight;
    TransferTakes(net, message, configs, answers);
    var rest, t := net.(toRx := net.toRx[1..]), Taken(net);
    SenderWaits(rest, message, t);
    StoredAll(rest, message, t);
    InFlightEmpty(net.tx, t.lastSequence);
    var net' := RxAfter(rest, AfterData(t, answers));
    NothingDelivered(net, message, configs);
    forall a | Patient(a) ensures Next(net', configs, a) == net' {
      hide Taken, AfterData, Stored;
      assert net'.toRx + [] == net'.toRx;
    }
  }

  lemma InFlightEmpty(tx: Session, from: nat)
    requires from == tx.lastSequence
    ensures InFlight(tx, from) == []
  {
  }

  lemma NothingDelivered(net: Net, message: Bytes, configs: Configs)
    requires At(net, message, configs, Transferring)
    ensures net.delivered == []
  {
  }

  /** A message is delivered by the last packet only. */
  lemma DeliversAtEnd(net: Net, message: Bytes, configs: Configs, stage: Stage, answers: seq<bool>)
    requires At(net, message, configs, stage)
    requires |Next(net, configs, DeliverToRx(answers, false)).delivered| > |net.delivered|
    ensures stage == Transferring && net.toRx != [] && Taken(net).Remaining() == 0
    ensures Next(net, configs, DeliverToRx(answers, false))
            == RxOnFrame(net.(toRx := net.toRx[1..]), configs.rx, net.toRx[0], answers, false)
  {
    hide Inv;
    if net.toRx != [] {
      RoundTrip(net.toRx[0]);
      if stage == Transferring {
        TransferTakes(net, message, configs, answers);
      }
    }
  }

  lemma RefusalStalls(net: Net, message: Bytes, configs: Configs, a: Action, bound: int)
    requires Lower(net, message, configs, bound) && Calm(a) && !Lossless(net, configs, a)
    ensures Stalled(Next(net, configs, a), message, configs)
  {
    hide At, Left, Next, Stalled;
    var stage :| At(net, message, configs, stage) && Left(net, stage) < bound;
    DeliversAtEnd(net, message, configs, stage, a.answers);
    RefusedAcknowledgementStalls(net, message, configs, a.answers);
  }

  // ---- whole runs --------------------------------------------------------------------

  /** The network as a system that makes progress. */
  function Progress(message: Bytes, configs: Configs): Runs.System<Net, Action> {
    Runs.System((n: Net, a: Action) => Next(n, configs, a), (a: Action) => Calm(a),
                (n: Net, a: Action) => Lossless(n, configs, a),
                (n: Net, b: int) => Lower(n, message, configs, b), (n: Net) => Done(n, message))
  }

  lemma Progresses(message: Bytes, configs: Configs)
    requires Usable(configs)
    ensures Runs.Progresses(Progress(message, configs))
  {
    hide Lower, Next, Lossless, Done, Stalled, Calm;
    var sys := Progress(message, configs);
    forall s, a | sys.allowed(s, a) ensures sys.calm(a) {
      LosslessIsCalm(s, configs, a);
    }
    forall s, b | sys.lower(s, b) ensures b > 0 {
      LowerIsPositive(s, message, configs, b);
    }
    forall s, a, b | sys.lower(s, b) && sys.allowed(s, a)
      ensures sys.lower(sys.next(s, a), if sys.next(s, a) == s then b else b - 1)
    {
      StepIsPaid(s, message, configs, a, b);
    }
    forall s, b | sys.lower(s, b) ensures sys.done(s) || Runs.CanLower(sys, s, b) {
      DoneOrMoves(s, message, configs, b);
      if !Done(s, message) {
        var a :| Lossless(s, configs, a) && Lower(Next(s, configs, a), message, configs, b - 1);
        assert sys.allowed(s, a) && sys.lower(sys.next(s, a), b - 1);
      }
    }
    forall s, a, b | sys.lower(s, b) && sys.calm(a) ensures sys.allowed(s, a) || Runs.Stuck(sys, sys.next(s, a)) {
      if !Lossless(s, configs, a) {
        RefusalStalls(s, message, configs, a, b);
        StalledIsStuck(Next(s, configs, a), message, configs);
      }
    }
  }

  lemma LosslessIsCalm(net: Net, configs: Configs, a: Action)
    ensures Lossless(net, configs, a) ==> Calm(a)
  {
  }

  lemma StalledIsStuck(net: Net, message: Bytes, configs: Configs)
    requires Stalled(net, message, configs)
    ensures Runs.Stuck(Progress(message, configs), net)
  {
    hide Next;
    assert forall a | Calm(a) :: Patient(a);
  }

  lemma {:induction false} SameRuns(message: Bytes, configs: Configs, net: Net, actions: seq<Action>)
    ensures Run(net, configs, actions) == Runs.Run(Progress(message, configs), net, actions)
    ensures LosslessRun(net, configs, actions) <==> Runs.Allowed(Progress(message, configs), net, actions)
    ensures CalmRun(actions) <==> Runs.Calm(Progress(message, configs), actions)
    decreases |actions|
  {
    hide Next, Lossless, Calm;
    if actions != [] {
      SameRuns(message, configs, net, actions[..|actions| - 1]);
    }
  }

  lemma StartIsLow(message: Bytes, pgn: u24, configs: Configs)
    requires IsEtpMessage(message)
    ensures Progress(message, configs).lower(Start(message, pgn), Budget(message) + 1)
  {
    StartIsPaid(message, pgn, configs);
  }

  /** A lossless transfer takes at most nine effective steps per packet, and seven more. */
  lemma {:induction false} RunsAreBounded(message: Bytes, pgn: u24, configs: Configs, actions: seq<Action>)
    requires IsEtpMessage(message) && Usable(configs) && LosslessRun(Start(message, pgn), configs, actions)
    ensures Runs.Effective(Progress(message, configs), Start(message, pgn), actions) <= Budget(message)
  {
    hide Progress, Runs.Progresses;
    Progresses(message, configs);
    StartIsLow(message, pgn, configs);
    SameRuns(message, configs, Start(message, pgn), actions);
    Runs.RunIsPaid(Progress(message, configs), Start(message, pgn), actions, Budget(message) + 1);
  }

  /** With no losses and no timeouts, whatever is refused, a transfer can be completed from a
      point of a run, delivered to the receiver and reported as a success to the sender,
      exactly when the acknowledgement of the last packet has not been refused before. */
  lemma {:induction false} CompletesIff(message: Bytes, pgn: u24, configs: Configs, actions: seq<Action>)
    requires IsEtpMessage(message) && Usable(configs) && CalmRun(actions)
    ensures LosslessRun(Start(message, pgn), configs, actions)
            <==> exists more :: CalmRun(more) && Done(Run(Start(message, pgn), configs, actions + more), message)
  {
    hide Progress, Runs.Progresses, Run, LosslessRun, CalmRun, Done;
    var sys, start := Progress(message, configs), Start(message, pgn);
    Progresses(message, configs);
    StartIsLow(message, pgn, configs);
    SameRuns(message, configs, start, actions);
    Runs.FinishableIff(sys, start, actions, Budget(message) + 1);
    forall more: seq<Action>
      ensures CalmRun(more) && Done(Run(start, configs, actions + more), message)
              <==> Runs.Calm(sys, more) && sys.done(Runs.Run(sys, start, actions + more))
    {
      SameRuns(message, configs, start, more);
      SameRuns(message, configs, start, actions + more);
      DoneIsDone(message, configs, Run(start, configs, actions + more));
    }
  }

  lemma DoneIsDone(message: Bytes, configs: Configs, net: Net)
    ensures Progress(message, configs).done(net) <==> Done(net, message)
  {
  }

  // ---- a run that stalls -------------------------------------------------------------

  /** A lossless run that delivers has a first delivering step. */
  lemma {:induction false} FirstDelivery(net: Net, configs: Configs, actions: seq<Action>) returns (n: nat)
    requires LosslessRun(net, configs, actions) && net.delivered == [] && Run(net, configs, actions).delivered != []
    ensures n < |actions| && LosslessRun(net, configs, actions[..n]) && Run(net, configs, actions[..n]).delivered == []
    ensures Lossless(Run(net, configs, actions[..n]), configs, actions[n])
    ensures Next(Run(net, configs, actions[..n]), configs, actions[n]).delivered != []
    decreases |actions|
  {
    hide Next, Lossless;
    var init := actions[..|actions| - 1];
    if Run(net, configs, init).delivered != [] {
      n := FirstDelivery(net, configs, init);
      assert init[..n] == actions[..n];
    } else {
      n := |actions| - 1;
    }
  }

  lemma OnlyFramesDeliver(net: Net, configs: Configs, a: Action)
    requires Calm(a) && |Next(net, configs, a).delivered| > |net.delivered|
    ensures a.DeliverToRx?
  {
    assert net.delivered + [] == net.delivered;
  }

  /** For the next action the answers make no difference to what is delivered. */
  lemma DeliversAnyway(net: Net, message: Bytes, configs: Configs, answers: seq<bool>, others: seq<bool>, bound: int)
    requires Lower(net, message, configs, bound)
    requires |Next(net, configs, DeliverToRx(answers, false)).delivered| > |net.delivered|
    ensures |Next(net, configs, DeliverToRx(others, false)).delivered| > |net.delivered|
  {
    hide Inv, Left;
    var stage :| At(net, message, configs, stage) && Left(net, stage) < bound;
    DeliversAtEnd(net, message, configs, stage, answers);
    RoundTrip(net.toRx[0]);
    TransferTakes(net, message, configs, others);
  }

  lemma CompleteRun(message: Bytes, pgn: u24, configs: Configs) returns (actions: seq<Action>)
    requires IsEtpMessage(message) && Usable(configs)
    ensures LosslessRun(Start(message, pgn), configs, actions) && Done(Run(Start(message, pgn), configs, actions), message)
  {
    hide Progress, Runs.Progresses, Run, LosslessRun, CalmRun, Done;
    var sys, start := Progress(message, configs), Start(message, pgn);
    Progresses(message, configs);
    StartIsLow(message, pgn, configs);
    SameRuns(message, configs, start, []);
    actions := Runs.CanFinish(sys, start, [], Budget(message) + 1);
    assert [] + actions == actions;
    SameRuns(message, configs, start, actions);
    DoneIsDone(message, configs, Run(start, configs, actions));
  }

  lemma StaysLow(message: Bytes, pgn: u24, configs: Configs, actions: seq<Action>) returns (bound: int)
    requires IsEtpMessage(message) && Usable(configs) && LosslessRun(Start(message, pgn), configs, actions)
    ensures Lower(Run(Start(message, pgn), configs, actions), message, configs, bound)
  {
    hide Runs.Progresses, Run, LosslessRun, CalmRun, Lower, Next, Lossless;
    var sys, start := Progress(message, configs), Start(message, pgn);
    Progresses(message, configs);
    StartIsLow(message, pgn, configs);
    SameRuns(message, configs, start, actions);
    Runs.RunIsPaid(sys, start, actions, Budget(message) + 1);
    bound := Budget(message) + 1 - Runs.Effective(sys, start, actions);
  }

  /** The first delivery of some complete run. */
  lemma ReachesDelivery(message: Bytes, pgn: u24, configs: Configs) returns (actions: seq<Action>, answers: seq<bool>)
    requires IsEtpMessage(message) && Usable(configs)
    ensures LosslessRun(Start(message, pgn), configs, actions)
    ensures var here := Run(Start(message, pgn), configs, actions);
            |Next(here, configs, DeliverToRx(answers, false)).delivered| > |here.delivered|
  {
    hide Run, LosslessRun, Next;
    var start := Start(message, pgn);
    var more := CompleteRun(message, pgn, configs);
    var n := FirstDelivery(start, configs, more);
    actions, answers := more[..n], more[n].answers;
    OnlyFramesDeliver(Run(start, configs, actions), configs, more[n]);
  }

  /** For every message and every configuration there is a run in which one refused frame, the
      acknowledgement of the last packet, leaves the sender waiting for its timeout. */
  lemma {:induction false} OneRefusalStalls(message: Bytes, pgn: u24, configs: Configs)
    requires IsEtpMessage(message) && Usable(configs)
    ensures exists actions ::
              && LosslessRun(Start(message, pgn), configs, actions)
              && Stalled(Next(Run(Start(message, pgn), configs, actions), configs, DeliverToRx([false], false)), message, configs)
  {
    hide Run, LosslessRun, Next, Stalled, Lower, Start;
    var actions, answers := ReachesDelivery(message, pgn, configs);
    var bound := StaysLow(message, pgn, configs, actions);
    var here := Run(Start(message, pgn), configs, actions);
    DeliversAnyway(here, message, configs, answers, [false], bound);
    RefusalStalls(here, message, configs, DeliverToRx([false], false), bound);
  }
}
