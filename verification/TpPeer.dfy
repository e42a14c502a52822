/** The receiver of the transport protocol against a peer that may send any frame at any
    time. A request to send is not limited to 1785 bytes, so a longer announcement can make
    the receiver deliver a buffer that was never filled: exactly then, and only then. */
module TpPeer {
  import opened Widths
  import opened Segmentation
  import opened TpFrames
  import opened Tp
  import opened TpNetwork
  import EtpPeer

  /** What one peer sends to everybody and what it sends to us go to two independent sessions;
      `broadcast` tells which one this is. `accepted` lists the payloads stored by the
      running session; `receipts` holds such a list for every delivered message. */
  datatype Peer = Peer(broadcast: bool, net: Net, accepted: seq<Payload>, receipts: seq<seq<Payload>>)

  datatype Event =
    | Arrives(frame: Frame, answers: seq<bool>, full: bool)
    | Runs(answers: seq<bool>, expired: bool)
    | AddressLost

  predicate Concerns(frame: Frame, broadcast: bool) {
    match frame
    case Bam(_, _, _) => broadcast
    case Data(everybody, _, _) => broadcast == everybody
    case _ => !broadcast
  }

  predicate Opens(frame: Frame) { frame.Bam? || frame.Rts? }

  function OnEvent(p: Peer, config: Config, e: Event): Peer {
    match e
    case AddressLost => p.(net := Next(p.net, Configs(config, config), RxAddressLost))
    case Runs(answers, expired) => p.(net := Next(p.net, Configs(config, config), RxUpdate(answers, expired)))
    case Arrives(frame, answers, full) =>
      if !Concerns(frame, p.broadcast) then p
      else
        var net' := RxOnFrame(p.net, config, frame, answers, full);
        // A refused announcement leaves everything as it was.
        if Opens(frame) && net' != p.net && net'.rx.Receiving? && !full then p.(net := net', accepted := [])
        else if frame.Data? && p.net.rx.Receiving? then
          var accepted' := p.accepted + [frame.payload];
          if |net'.delivered| > |p.net.delivered| then p.(net := net', accepted := accepted', receipts := p.receipts + [accepted'])
          else if net'.rx.Receiving? then p.(net := net', accepted := accepted')
          else p.(net := net')
        else p.(net := net')
  }

  function OnEvents(p: Peer, config: Config, events: seq<Event>): Peer
    decreases |events|
  {
    if events == [] then p
    else OnEvent(OnEvents(p, config, events[..|events| - 1]), config, events[|events| - 1])
  }

  /** The first `k` packets are stored and nothing else is. */
  predicate Stored(data: Bytes, packets: seq<Payload>) {
    var filled := Filled(|data|, |packets|);
    data[..filled] == EtpPeer.Flatten(packets)[..filled] && forall i | filled <= i < |data| :: data[i] == 0
  }

  predicate Holds(s: Session, accepted: seq<Payload>) {
    && (s.state == WaitForDataTransferPacket || (s.state == SendClearToSend && !s.broadcast))
    && s.lastSequence == |accepted|
    && (s.TotalPackets() > 0 ==> |accepted| < s.TotalPackets())
    && (s.broadcast ==> s.ctsPackets == s.acknowledged == 0)
    && Stored(s.data, accepted)
  }

  predicate Receipt(message: Bytes, packets: seq<Payload>) {
    && |packets| == PacketCount8(|message|) > 0
    && Stored(message, packets)
  }

  predicate PeerInv(p: Peer) {
    && (p.net.rx.Receiving? ==> Holds(p.net.rx.session, p.accepted) && p.net.rx.session.broadcast == p.broadcast)
    && |p.receipts| == |p.net.delivered|
    && (forall i | 0 <= i < |p.receipts| :: Receipt(p.net.delivered[i], p.receipts[i]))
    && (p.broadcast ==> p.net.toTx == [])
    && (p.broadcast ==> forall d | d in p.net.delivered :: |d| <= MAX_PROTOCOL_DATA_LENGTH)
    && (p.broadcast && p.net.rx.Receiving? ==> |p.net.rx.session.data| <= MAX_PROTOCOL_DATA_LENGTH)
  }

  lemma OpenHolds(pgn: u24, size: u16, broadcast: bool, max: u8)
    ensures Holds(OpenReceive(pgn, size, broadcast, max), [])
  {
  }

  lemma StoresOne(data: Bytes, packets: seq<Payload>, payload: Payload)
    requires Stored(data, packets) && 7 * |packets| < |data|
    ensures Stored(StoreAt(data, 7 * |packets|, payload), packets + [payload])
  {
    var k := |packets|;
    assert (packets + [payload])[..k] == packets;
    StoreAppends(data, k, EtpPeer.Flatten(packets), payload);
  }

  lemma DataKeeps(s: Session, accepted: seq<Payload>, sequence: u8, payload: Payload, answers: seq<bool>)
    requires Holds(s, accepted)
    ensures var o := OnData(s, sequence, payload, answers);
            && (o.fate.Open? ==> Holds(o.session, accepted + [payload]) && o.session.broadcast == s.broadcast
                                 && |o.session.data| == |s.data|)
            && (o.delivered == [] || (!o.fate.Open? && |o.delivered| == 1 && |o.delivered[0]| == |s.data|
                                      && Receipt(o.delivered[0], accepted + [payload])))
            && (s.broadcast ==> o.sent == [])
            && (o.fate.Open? ==> o.delivered == [])
  {
    hide Stored, PacketCount8, StoreAt;
    if s.state == WaitForDataTransferPacket && sequence == s.lastSequence as int + 1 && 7 * s.lastSequence as int < |s.data| {
      StoresOne(s.data, accepted, payload);
    }
  }

  lemma DataEventKeeps(p: Peer, config: Config, frame: Frame, answers: seq<bool>, full: bool)
    requires PeerInv(p) && frame.Data?
    ensures PeerInv(OnEvent(p, config, Arrives(frame, answers, full)))
  {
    hide Stored, PacketCount8, Holds, Receipt, OnData;
    if p.net.rx.Receiving? {
      DataKeeps(p.net.rx.session, p.accepted, frame.sequence, frame.payload, answers);
    }
  }

  lemma OpeningKeeps(p: Peer, config: Config, frame: Frame, answers: seq<bool>, full: bool)
    requires PeerInv(p) && Opens(frame)
    ensures PeerInv(OnEvent(p, config, Arrives(frame, answers, full)))
  {
    hide Stored, PacketCount8, Receipt;
    if frame.Rts? {
      OpenHolds(frame.pgn, frame.size, false, Min(frame.max, config.packetsPerCts));
    } else {
      OpenHolds(frame.pgn, frame.size, true, 0xFF);
    }
  }

  lemma EventKeeps(p: Peer, config: Config, e: Event)
    requires PeerInv(p)
    ensures PeerInv(OnEvent(p, config, e))
  {
    hide Stored, PacketCount8, Receipt;
    if e.Arrives? && e.frame.Data? {
      DataEventKeeps(p, config, e.frame, e.answers, e.full);
    } else if e.Arrives? && Opens(e.frame) {
      OpeningKeeps(p, config, e.frame, e.answers, e.full);
    }
  }

  lemma {:induction false} EventsKeep(p: Peer, config: Config, events: seq<Event>)
    requires PeerInv(p)
    ensures PeerInv(OnEvents(p, config, events))
    decreases |events|
  {
    if events != [] {
      EventsKeep(p, config, events[..|events| - 1]);
      EventKeeps(OnEvents(p, config, events[..|events| - 1]), config, events[|events| - 1]);
    }
  }

  function Fresh(tx: Session, broadcast: bool): Peer {
    Peer(broadcast, Net(tx, Open, NoSession, [], [], []), [], [])
  }

  /** Whatever a peer sends, a delivered buffer holds the accepted packets in order and zeros
      behind them, and as many packets are accepted as the 8-bit count of its size says. */
  lemma {:induction false} ReceiverIsExact(tx: Session, broadcast: bool, config: Config, events: seq<Event>)
    ensures var p := OnEvents(Fresh(tx, broadcast), config, events);
            && |p.receipts| == |p.net.delivered|
            && forall i | 0 <= i < |p.receipts| :: Receipt(p.net.delivered[i], p.receipts[i])
  {
    EventsKeep(Fresh(tx, broadcast), config, events);
  }

  lemma EventIsOfOneMode(p: Peer, config: Config, e: Event)
    ensures OnEvent(p, config, e).broadcast == p.broadcast
  {
    hide RxOnFrame, Next;
  }

  lemma EventsAreOfOneMode(p: Peer, config: Config, events: seq<Event>)
    ensures OnEvents(p, config, events).broadcast == p.broadcast
    decreases |events|
  {
    if events != [] {
      EventsAreOfOneMode(p, config, events[..|events| - 1]);
      EventIsOfOneMode(OnEvents(p, config, events[..|events| - 1]), config, events[|events| - 1]);
    }
  }

  /** A receiver of broadcasts never answers, although the code that follows a data frame
      would send a clear to send to nobody if the 8-bit window count reached zero. */
  lemma {:induction false} BroadcastsAreNeverAnswered(tx: Session, config: Config, events: seq<Event>)
    ensures var p := OnEvents(Fresh(tx, true), config, events);
            && p.net.toTx == []
            && forall d | d in p.net.delivered :: |d| <= MAX_PROTOCOL_DATA_LENGTH
  {
    EventsKeep(Fresh(tx, true), config, events);
    EventsAreOfOneMode(Fresh(tx, true), config, events);
  }

  /** A delivered buffer was filled to its end exactly when it respects the length limit. */
  lemma FilledIffWithinLimit(message: Bytes, packets: seq<Payload>)
    requires Receipt(message, packets)
    ensures message == EtpPeer.Flatten(packets)[..Filled(|message|, |packets|)]
            <==> |message| <= MAX_PROTOCOL_DATA_LENGTH
  {
    if |message| <= MAX_PROTOCOL_DATA_LENGTH {
      SmallCount(|message|);
      AllFilled(|message|, |packets|);
    }
  }

  lemma LongRequestOpens(tx: Session)
    ensures var p := OnEvent(Fresh(tx, false), Config(16, 0xFF), Arrives(Rts(1793, 1, 0xFF, 0), [true], false));
            && p.net.rx == Receiving(Session(Receive, false, 0, seq(1793, i => 0), WaitForDataTransferPacket, 0, 0, 1, 16))
            && p.net.delivered == []
  {
  }

  lemma OnePacketFills(p: Peer, payload: Payload)
    requires p.net.rx == Receiving(Session(Receive, false, 0, seq(1793, i => 0), WaitForDataTransferPacket, 0, 0, 1, 16))
    requires p.net.delivered == [] && !p.broadcast
    ensures OnEvent(p, Config(16, 0xFF), Arrives(Data(false, 1, payload), [true], false)).net.delivered
            == [payload + seq(1786, i => 0)]
  {
    hide Offer, PgnBytes;
    assert StoreAt(seq(1793, i => 0), 0, payload) == payload + seq(1786, i => 0);
  }

  /** One request and one packet that make the receiver deliver 1793 bytes. */
  lemma UnfilledDelivery(tx: Session, payload: Payload)
    ensures OnEvents(Fresh(tx, false), Config(16, 0xFF),
                     [Arrives(Rts(1793, 1, 0xFF, 0), [true], false), Arrives(Data(false, 1, payload), [true], false)]).net.delivered
            == [payload + seq(1786, i => 0)]
  {
    hide OnEvent;
    var e0, e1 := Arrives(Rts(1793, 1, 0xFF, 0), [true], false), Arrives(Data(false, 1, payload), [true], false);
    assert [e0, e1][..1] == [e0] && [e0][..0] == [];
    var p0, config := Fresh(tx, false), Config(16, 0xFF);
    assert OnEvents(p0, config, [e0]) == OnEvent(OnEvents(p0, config, []), config, e0) == OnEvent(p0, config, e0);
    LongRequestOpens(tx);
    EventIsOfOneMode(p0, config, e0);
    OnePacketFills(OnEvent(p0, config, e0), payload);
  }

  lemma FirstSent(tx: Session, config: Config, answers: seq<bool>)
    ensures var sent := SendData(tx, config, answers).sent;
            sent != [] ==> sent[0].Data? && sent[0].sequence == Low8(tx.lastSequence as int + 1)
  {
    hide PacketCount8, Packet;
  }

  /** The sender never goes back: when a grant is taken, the next packet sent is the one asked
      for exactly when that is the one behind the last packet sent. */
  lemma GrantIsServedIff(tx: Session, config: Config, pgn: u24, packets: u8, next: u8, answers: seq<bool>)
    requires tx.pgn == pgn && tx.state == WaitForClearToSend && !tx.broadcast && 0 < next <= tx.TotalPackets() && packets > 0
    requires tx.lastSequence < 0xFF
    ensures var granted := OnCts(tx, pgn, packets, next, []);
            var sent := SendData(granted.session, config, answers).sent;
            && granted.fate.Open? && granted.session.state == SendDataTransferPackets
            && (sent != [] ==> sent[0].Data? && (sent[0].sequence == next <==> next == tx.lastSequence as int + 1))
  {
    hide PacketCount8, SendData;
    FirstSent(OnCts(tx, pgn, packets, next, []).session, config, answers);
  }
}
