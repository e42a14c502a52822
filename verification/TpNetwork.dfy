/** One sender session and one receiver session of the transport protocol, in connection
    mode or broadcast, joined by a network that may lose, duplicate and reorder frames.
    Since the sequence number of a data frame determines its bytes, whatever is delivered
    is the sender's message in every run. */
module TpNetwork {
  import opened Widths
  import opened Segmentation
  import opened TpFrames
  import opened Tp

  datatype Receiver = NoSession | Receiving(session: Session)

  datatype Net = Net(
    tx: Session,
    txFate: Fate,
    rx: Receiver,
    toRx: seq<Frame>,
    toTx: seq<Frame>,
    delivered: seq<Bytes>)

  datatype Configs = Configs(tx: Config, rx: Config)

  /** Any frame in flight may be delivered at any time, and stay in flight if `keep`. */
  datatype Action =
    | TxUpdate(answers: seq<bool>, expired: bool, early: bool)
    | RxUpdate(answers: seq<bool>, expired: bool)
    | TxAddressLost
    | RxAddressLost
    | DeliverToRx(i: nat, keep: bool, answers: seq<bool>, full: bool)
    | DeliverToTx(i: nat, keep: bool, answers: seq<bool>)
    | LoseToRx(i: nat)
    | LoseToTx(i: nat)

  function Without(channel: seq<Frame>, i: nat): seq<Frame>
    requires i < |channel|
  {
    channel[..i] + channel[i + 1..]
  }

  function TxAfter(net: Net, o: Outcome): Net {
    net.(tx := o.session, txFate := o.fate, toRx := net.toRx + o.sent)
  }

  function RxAfter(net: Net, o: Outcome): Net {
    net.(rx := if o.fate.Open? then Receiving(o.session) else NoSession,
         toTx := net.toTx + o.sent, delivered := net.delivered + o.delivered)
  }

  /** `process_broadcast_announce_message` */
  function RxOnBam(net: Net, size: u16, packets: u8, pgn: u24, full: bool): Net {
    if full || size > MAX_PROTOCOL_DATA_LENGTH then net
    else if PacketCount8(size) != packets then net.(rx := NoSession)
    else net.(rx := Receiving(OpenReceive(pgn, size, true, 0xFF)))
  }

  /** `process_request_to_send`: unlike an announcement it is not limited to 1785 bytes. */
  function RxOnRts(net: Net, config: Config, size: u16, packets: u8, max: u8, pgn: u24, answers: seq<bool>, full: bool): Net {
    if full then net.(toTx := net.toTx + Offer(Abort(ALREADY_IN_CM_SESSION, pgn), answers))
    else
      var aborts := net.rx.Receiving? && net.rx.session.pgn != pgn;
      var cleared := if aborts
                     then RxAfter(net, AbortSession(net.rx.session, ALREADY_IN_CM_SESSION, answers))
                     else net;
      var rest := if aborts && |answers| > 0 then answers[1..] else answers;
      var s := OpenReceive(pgn, size, false, Min(max, config.packetsPerCts));
      if s.TotalPackets() != packets then RxAfter(cleared, AbortSession(s, ANY_OTHER_ERROR, rest))
      else RxAfter(cleared, FirstCts(s, rest))
  }

  function RxOnFrame(net: Net, config: Config, frame: Frame, answers: seq<bool>, full: bool): Net {
    match frame
    case Bam(size, packets, pgn) => RxOnBam(net, size, packets, pgn, full)
    case Rts(size, packets, max, pgn) => RxOnRts(net, config, size, packets, max, pgn, answers, full)
    case Data(broadcast, sequence, payload) =>
      if net.rx.NoSession? || net.rx.session.broadcast != broadcast then net
      else RxAfter(net, OnData(net.rx.session, sequence, payload, answers))
    case Abort(reason, pgn) =>
      if net.rx.Receiving? && !net.rx.session.broadcast && net.rx.session.pgn == pgn then net.(rx := NoSession) else net
    case Cts(_, _, _) => net
    case Eoma(_, _, _) => net
  }

  /** No control frame finds a broadcast session, which has no destination. */
  function TxOnFrame(net: Net, frame: Frame, answers: seq<bool>): Net {
    if !net.txFate.Open? || net.tx.broadcast then net
    else
      match frame
      case Cts(packets, next, pgn) => TxAfter(net, OnCts(net.tx, pgn, packets, next, answers))
      case Eoma(_, _, _) => TxAfter(net, OnEoma(net.tx))
      case Abort(reason, pgn) => if net.tx.pgn == pgn then net.(txFate := Closed(false)) else net
      case _ => net
  }

  /** Frames cross the bus as bytes. */
  function OnBus(frame: Frame): Frame {
    RoundTrip(frame);
    Decode(Encode(frame)).frame
  }

  function Next(net: Net, configs: Configs, a: Action): Net {
    match a
    case TxUpdate(answers, expired, early) =>
      if net.txFate.Open? then TxAfter(net, Update(net.tx, configs.tx, answers, expired, early)) else net
    case RxUpdate(answers, expired) =>
      if net.rx.Receiving? then RxAfter(net, Update(net.rx.session, configs.rx, answers, expired, false)) else net
    case TxAddressLost => if net.txFate.Open? then net.(txFate := Closed(false)) else net
    case RxAddressLost => net.(rx := NoSession)
    case DeliverToRx(i, keep, answers, full) =>
      if i >= |net.toRx| then net
      else RxOnFrame(if keep then net else net.(toRx := Without(net.toRx, i)), configs.rx, OnBus(net.toRx[i]), answers, full)
    case DeliverToTx(i, keep, answers) =>
      if i >= |net.toTx| then net
      else TxOnFrame(if keep then net else net.(toTx := Without(net.toTx, i)), OnBus(net.toTx[i]), answers)
    case LoseToRx(i) => if i < |net.toRx| then net.(toRx := Without(net.toRx, i)) else net
    case LoseToTx(i) => if i < |net.toTx| then net.(toTx := Without(net.toTx, i)) else net
  }

  function Start(message: Bytes, pgn: u24, broadcast: bool, config: Config): Net {
    Net(OpenTransmit(pgn, message, broadcast, config), Open, NoSession, [], [], [])
  }

  function Run(net: Net, configs: Configs, actions: seq<Action>): Net
    decreases |actions|
  {
    if actions == [] then net
    else Next(Run(net, configs, actions[..|actions| - 1]), configs, actions[|actions| - 1])
  }

  // ---- the invariant -----------------------------------------------------------------

  predicate IsTpMessage(message: Bytes) { 8 < |message| <= MAX_PROTOCOL_DATA_LENGTH }

  /** A frame that tells the truth about the message. */
  predicate Honest(f: Frame, message: Bytes) {
    match f
    case Bam(size, packets, pgn) => size == |message| && packets == PacketCount(|message|)
    case Rts(size, packets, max, pgn) => size == |message| && packets == PacketCount(|message|)
    case Data(broadcast, sequence, payload) => sequence > 0 ==> payload == Packet(message, sequence as int - 1)
    case _ => true
  }

  predicate HonestFrames(ch: seq<Frame>, message: Bytes) { forall i | 0 <= i < |ch| :: Honest(ch[i], message) }

  predicate NoEoma(ch: seq<Frame>) { forall i | 0 <= i < |ch| :: !ch[i].Eoma? }

  predicate Prefix(s: Session, message: Bytes) {
    && (s.state == SendClearToSend || s.state == WaitForDataTransferPacket)
    && |s.data| == |message| && s.lastSequence < PacketCount(|message|)
    && s.data[..Filled(|message|, s.lastSequence)] == message[..Filled(|message|, s.lastSequence)]
  }

  predicate Inv(net: Net, message: Bytes) {
    && IsTpMessage(message) && net.tx.data == message
    && HonestFrames(net.toRx, message)
    && (net.rx.Receiving? ==> Prefix(net.rx.session, message))
    && (forall d | d in net.delivered :: d == message)
    && (!NoEoma(net.toTx) ==> net.delivered != [])
    && (net.txFate == Closed(true) && !net.tx.broadcast ==> net.delivered != [])
  }

  lemma SmallCount(length: u16)
    requires length <= MAX_PROTOCOL_DATA_LENGTH
    ensures PacketCount8(length) == PacketCount(length) <= 255
  {
  }

  lemma ChannelsShrink(net: Net, message: Bytes, i: nat)
    requires Inv(net, message)
    ensures i < |net.toRx| ==> Inv(net.(toRx := Without(net.toRx, i)), message)
    ensures i < |net.toTx| ==> Inv(net.(toTx := Without(net.toTx, i)), message)
  {
    if i < |net.toRx| {
      var ch := Without(net.toRx, i);
      forall j | 0 <= j < |ch| ensures ch[j] == net.toRx[if j < i then j else j + 1] {
      }
    }
    if i < |net.toTx| {
      var ch := Without(net.toTx, i);
      forall j | 0 <= j < |ch| ensures ch[j] == net.toTx[if j < i then j else j + 1] {
      }
    }
  }

  /** Whatever window the sender believes in, its data frames are honest. */
  lemma SendsHonest(tx: Session, message: Bytes, config: Config, answers: seq<bool>)
    requires tx.data == message
    ensures HonestFrames(SendData(tx, config, answers).sent, message)
    ensures SendData(tx, config, answers).session.data == message
    ensures SendData(tx, config, answers).session.broadcast == tx.broadcast
    ensures SendData(tx, config, answers).fate == Closed(true) ==> tx.broadcast
  {
    var k := Streak(answers, FramesToSend(tx, config));
    forall i | 0 <= i < k ensures Honest(tx.Advance(i).NextData(), message) {
    }
  }

  lemma TxUpdateKeeps(net: Net, message: Bytes, config: Config, answers: seq<bool>, expired: bool, early: bool)
    requires Inv(net, message) && net.txFate.Open?
    ensures Inv(TxAfter(net, Update(net.tx, config, answers, expired, early)), message)
  {
    hide PacketCount;
    var o := Update(net.tx, config, answers, expired, early);
    SendsHonest(net.tx, message, config, answers);
    SmallCount(|message|);
    assert HonestFrames(o.sent, message);
  }

  lemma NoEomaAppend(a: seq<Frame>, b: seq<Frame>)
    ensures NoEoma(a) && NoEoma(b) ==> NoEoma(a + b)
  {
  }

  lemma RxTakesKeeps(net: Net, message: Bytes, o: Outcome)
    requires Inv(net, message)
    requires o.fate.Open? ==> Prefix(o.session, message)
    requires o.delivered == [] || o.delivered == [message]
    requires !NoEoma(o.sent) ==> o.delivered != []
    ensures Inv(RxAfter(net, o), message)
  {
    hide Prefix;
    NoEomaAppend(net.toTx, o.sent);
  }

  lemma OpenedIsPrefix(message: Bytes, pgn: u24, broadcast: bool, max: u8)
    requires IsTpMessage(message)
    ensures Prefix(OpenReceive(pgn, |message|, broadcast, max), message)
  {
  }

  lemma RxOnRtsKeeps(net: Net, message: Bytes, config: Config, f: Frame, answers: seq<bool>, full: bool)
    requires Inv(net, message) && f.Rts? && Honest(f, message)
    ensures Inv(RxOnRts(net, config, f.size, f.packets, f.max, f.pgn, answers, full), message)
  {
    hide Prefix;
    if full {
      NoEomaAppend(net.toTx, Offer(Abort(ALREADY_IN_CM_SESSION, f.pgn), answers));
    } else {
      var aborts := net.rx.Receiving? && net.rx.session.pgn != f.pgn;
      if aborts {
        RxTakesKeeps(net, message, AbortSession(net.rx.session, ALREADY_IN_CM_SESSION, answers));
      }
      var cleared := if aborts then RxAfter(net, AbortSession(net.rx.session, ALREADY_IN_CM_SESSION, answers)) else net;
      var s := OpenReceive(f.pgn, f.size, false, Min(f.max, config.packetsPerCts));
      var rest := if aborts && |answers| > 0 then answers[1..] else answers;
      OpenedIsPrefix(message, f.pgn, false, s.ctsMax);
      SamePrefix(s, FirstCts(s, rest).session, message);
      RxTakesKeeps(cleared, message, if s.TotalPackets() != f.packets then AbortSession(s, ANY_OTHER_ERROR, rest) else FirstCts(s, rest));
    }
  }

  lemma SamePrefix(s: Session, t: Session, message: Bytes)
    requires Prefix(s, message) && t.data == s.data && t.lastSequence == s.lastSequence
    requires t.state == SendClearToSend || t.state == WaitForDataTransferPacket
    ensures Prefix(t, message)
  {
  }

  lemma StoresHonest(s: Session, message: Bytes, sequence: u8)
    requires IsTpMessage(message) && Prefix(s, message) && sequence == s.lastSequence as int + 1
    ensures 7 * s.lastSequence as int < |s.data|
    ensures var t := Accept(s, sequence, Packet(message, s.lastSequence));
            && (t.Remaining() == 0 ==> t.data == message)
            && (t.Remaining() != 0 ==> Prefix(t, message))
  {
    SmallCount(|message|);
    StoreExtends(s.data, message, s.lastSequence);
    var t := Accept(s, sequence, Packet(message, s.lastSequence));
    if t.Remaining() == 0 {
      AllFilled(|message|, sequence);
    }
  }

  lemma RxOnDataKeeps(net: Net, message: Bytes, sequence: u8, payload: Payload, answers: seq<bool>)
    requires Inv(net, message) && net.rx.Receiving? && (sequence > 0 ==> payload == Packet(message, sequence as int - 1))
    ensures Inv(RxAfter(net, OnData(net.rx.session, sequence, payload, answers)), message)
  {
    hide Prefix;
    var s := net.rx.session;
    var o := OnData(s, sequence, payload, answers);
    if sequence == s.lastSequence as int + 1 {
      StoresHonest(s, message, sequence);
      var t := Accept(s, sequence, payload);
      if t.Remaining() != 0 {
        SamePrefix(t, AfterData(t, answers).session, message);
      }
    }
    RxTakesKeeps(net, message, o);
  }

  lemma RxOnFrameKeeps(net: Net, message: Bytes, config: Config, f: Frame, answers: seq<bool>, full: bool)
    requires Inv(net, message) && Honest(f, message)
    ensures Inv(RxOnFrame(net, config, f, answers, full), message)
  {
    hide Prefix;
    match f
    case Bam(size, packets, pgn) => OpenedIsPrefix(message, pgn, true, 0xFF);
    case Rts(size, packets, max, pgn) => RxOnRtsKeeps(net, message, config, f, answers, full);
    case Data(broadcast, sequence, payload) =>
      if net.rx.Receiving? {
        RxOnDataKeeps(net, message, sequence, payload, answers);
      }
    case _ =>
  }

  lemma TxOnFrameKeeps(net: Net, message: Bytes, f: Frame, answers: seq<bool>)
    requires Inv(net, message) && (f.Eoma? ==> net.delivered != [])
    ensures Inv(TxOnFrame(net, f, answers), message)
  {
    hide Prefix, PacketCount;
  }

  lemma RxUpdateKeeps(net: Net, message: Bytes, config: Config, answers: seq<bool>, expired: bool)
    requires Inv(net, message) && net.rx.Receiving?
    ensures Inv(RxAfter(net, Update(net.rx.session, config, answers, expired, false)), message)
  {
    var s := net.rx.session;
    var o := Update(s, config, answers, expired, false);
    if o.fate.Open? {
      SamePrefix(s, o.session, message);
    }
    RxTakesKeeps(net, message, o);
  }

  lemma NextKeeps(net: Net, message: Bytes, configs: Configs, a: Action)
    requires Inv(net, message)
    ensures Inv(Next(net, configs, a), message)
  {
    hide Prefix;
    match a
    case TxUpdate(answers, expired, early) =>
      if net.txFate.Open? {
        TxUpdateKeeps(net, message, configs.tx, answers, expired, early);
      }
    case RxUpdate(answers, expired) =>
      if net.rx.Receiving? {
        RxUpdateKeeps(net, message, configs.rx, answers, expired);
      }
    case DeliverToRx(i, keep, answers, full) =>
      if i < |net.toRx| {
        ChannelsShrink(net, message, i);
        RoundTrip(net.toRx[i]);
        RxOnFrameKeeps(if keep then net else net.(toRx := Without(net.toRx, i)), message, configs.rx, net.toRx[i], answers, full);
      }
    case DeliverToTx(i, keep, answers) =>
      if i < |net.toTx| {
        ChannelsShrink(net, message, i);
        RoundTrip(net.toTx[i]);
        TxOnFrameKeeps(if keep then net else net.(toTx := Without(net.toTx, i)), message, net.toTx[i], answers);
      }
    case LoseToRx(i) => ChannelsShrink(net, message, i);
    case LoseToTx(i) => ChannelsShrink(net, message, i);
    case _ =>
  }

  lemma {:induction false} RunKeeps(net: Net, message: Bytes, configs: Configs, actions: seq<Action>)
    requires Inv(net, message)
    ensures Inv(Run(net, configs, actions), message)
    decreases |actions|
  {
    if actions != [] {
      var before := actions[..|actions| - 1];
      RunKeeps(net, message, configs, before);
      NextKeeps(Run(net, configs, before), message, configs, actions[|actions| - 1]);
    }
  }

  lemma NextIsOfOneMode(net: Net, configs: Configs, a: Action)
    ensures Next(net, configs, a).tx.broadcast == net.tx.broadcast
  {
  }

  lemma RunIsOfOneMode(net: Net, configs: Configs, actions: seq<Action>)
    ensures Run(net, configs, actions).tx.broadcast == net.tx.broadcast
    decreases |actions|
  {
    if actions != [] {
      var before := actions[..|actions| - 1];
      RunIsOfOneMode(net, configs, before);
      NextIsOfOneMode(Run(net, configs, before), configs, actions[|actions| - 1]);
    }
  }

  /** Whatever the network loses, repeats or reorders, in connection mode and broadcast, a
      message the receiver hands over is the one that was sent. */
  lemma {:induction false} Safety(message: Bytes, pgn: u24, broadcast: bool, configs: Configs, actions: seq<Action>)
    requires IsTpMessage(message)
    ensures forall d | d in Run(Start(message, pgn, broadcast, configs.tx), configs, actions).delivered :: d == message
  {
    RunKeeps(Start(message, pgn, broadcast, configs.tx), message, configs, actions);
  }

  /** A sender with a destination that reports success has had its message delivered. */
  lemma {:induction false} Agreement(message: Bytes, pgn: u24, configs: Configs, actions: seq<Action>)
    requires IsTpMessage(message)
    requires Run(Start(message, pgn, false, configs.tx), configs, actions).txFate == Closed(true)
    ensures message in Run(Start(message, pgn, false, configs.tx), configs, actions).delivered
  {
    var net := Run(Start(message, pgn, false, configs.tx), configs, actions);
    RunKeeps(Start(message, pgn, false, configs.tx), message, configs, actions);
    RunIsOfOneMode(Start(message, pgn, false, configs.tx), configs, actions);
    assert net.delivered[0] in net.delivered;
  }
}
