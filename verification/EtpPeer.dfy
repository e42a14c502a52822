/** The receiver of the extended transport protocol against a peer that may send any
    frame at any time. What it has stored is always the concatenation of the packets it
    accepted, and nothing is delivered before every byte of it has been received. */
module EtpPeer {
  import opened Widths
  import opened Segmentation
  import opened EtpFrames
  import opened Etp
  import opened EtpNetwork
  import opened EtpSafety

  /** `accepted` lists the payloads that did not make the running session abort; `receipts`
      holds such a list for every delivered message. The sender part of `net` is unused. */
  datatype Peer = Peer(net: Net, accepted: seq<Payload>, receipts: seq<seq<Payload>>)

  datatype Event =
    | Arrives(frame: Frame, answers: seq<bool>, full: bool)
    | Runs(answers: seq<bool>, expired: bool)
    | AddressLost

  function Flatten(packets: seq<Payload>): (bytes: seq<u8>)
    ensures |bytes| == 7 * |packets|
  {
    if packets == [] then [] else Flatten(packets[..|packets| - 1]) + packets[|packets| - 1]
  }

  function OnEvent(p: Peer, config: Config, e: Event): Peer {
    match e
    case AddressLost => p.(net := Next(p.net, Configs(config, config), RxAddressLost))
    case Runs(answers, expired) => p.(net := Next(p.net, Configs(config, config), RxUpdate(answers, expired)))
    case Arrives(frame, answers, full) =>
      var net' := RxOnFrame(p.net, config, frame, answers, full);
      if frame.Rts? && !full then Peer(net', [], p.receipts)
      else if frame.Data? && p.net.rx.Receiving? then
        var accepted' := p.accepted + [frame.payload];
        if |net'.delivered| > |p.net.delivered| then Peer(net', accepted', p.receipts + [accepted'])
        else if net'.rx.Receiving? then Peer(net', accepted', p.receipts)
        else p.(net := net')
      else p.(net := net')
  }

  function OnEvents(p: Peer, config: Config, events: seq<Event>): Peer
    decreases |events|
  {
    if events == [] then p
    else OnEvent(OnEvents(p, config, events[..|events| - 1]), config, events[|events| - 1])
  }

  predicate Holds(s: Session, accepted: seq<Payload>) {
    && s.offset as int + s.lastSequence as int == |accepted| == s.LastPacket()
    && |accepted| <= s.TotalPackets()
    && (|s.data| > 0 ==> |accepted| < s.TotalPackets())
    && s.data[..Filled(|s.data|, |accepted|)] == Flatten(accepted)[..Filled(|s.data|, |accepted|)]
    && match s.state
       case SendClearToSend => true
       case WaitForDataPacketOffset => s.acknowledged == |accepted|
       case WaitForDataTransferPacket => s.acknowledged == s.offset && s.lastSequence < s.dpoPackets
       case _ => false
  }

  predicate Receipt(message: Bytes, packets: seq<Payload>) {
    && |packets| == PacketCount(|message|)
    && message == Flatten(packets)[..|message|]
  }

  predicate PeerInv(p: Peer) {
    && (p.net.rx.Receiving? ==> Holds(p.net.rx.session, p.accepted))
    && |p.receipts| == |p.net.delivered|
    && forall i | 0 <= i < |p.receipts| :: Receipt(p.net.delivered[i], p.receipts[i])
  }

  /** No byte is written outside the buffer, whatever the peer sends: the store index is
      exact, and past the end only for the empty message, where nothing is stored. */
  lemma StoreInBounds(s: Session, accepted: seq<Payload>)
    requires Holds(s, accepted)
    ensures DataIndex(s) == 7 * |accepted|
    ensures DataIndex(s) < |s.data| <==> |s.data| > 0
  {
  }

  /** While data is expected the 8-bit count of packets left in the window is exact. */
  lemma RemainingNeverWraps(s: Session, accepted: seq<Payload>)
    requires Holds(s, accepted) && s.state == WaitForDataTransferPacket
    ensures s.DpoRemaining() == s.dpoPackets - s.lastSequence > 0
  {
  }

  lemma AppendPayload(s: Session, accepted: seq<Payload>, payload: Payload)
    requires Holds(s, accepted) && s.state == WaitForDataTransferPacket && |s.data| > 0
    ensures var t := Accept(s, s.lastSequence + 1, payload);
            var filled := Filled(|s.data|, |accepted| + 1);
            t.data[..filled] == Flatten(accepted + [payload])[..filled]
  {
    var k := |accepted|;
    assert (accepted + [payload])[..k] == accepted;
    StoreInBounds(s, accepted);
    StoreAppends(s.data, k, Flatten(accepted), payload);
  }

  lemma OneMoreAccepted(s: Session, t: Session, k: nat)
    requires s.offset as int + s.lastSequence as int == k == s.LastPacket() && k < s.TotalPackets()
    requires s.acknowledged == s.offset && s.lastSequence < s.dpoPackets
    requires t == s.(data := t.data, lastSequence := s.lastSequence + 1) && |t.data| == |s.data|
    ensures t.LastPacket() == k + 1 == t.offset as int + t.lastSequence as int
    ensures t.Remaining() == t.TotalPackets() - (k + 1)
    ensures t.DpoRemaining() == t.dpoPackets - t.lastSequence
  {
  }

  lemma DataKeeps(p: Peer, config: Config, sequence: u8, payload: Payload, answers: seq<bool>, full: bool)
    requires PeerInv(p) && p.net.rx.Receiving?
    ensures PeerInv(OnEvent(p, config, Arrives(Data(sequence, payload), answers, full)))
  {
    hide PacketCount, Flatten, StoreAt, Filled;
    var s := p.net.rx.session;
    var o := OnData(s, sequence, payload, answers);
    if s.state == WaitForDataTransferPacket && sequence == s.lastSequence as int + 1 && |s.data| > 0 {
      var t := Accept(s, sequence, payload);
      var accepted' := p.accepted + [payload];
      AppendPayload(s, p.accepted, payload);
      OneMoreAccepted(s, t, |p.accepted|);
      if t.Remaining() == 0 {
        AllFilled(|t.data|, |accepted'|);
        assert Receipt(t.data, accepted');
      } else {
        assert o.fate.Open? && Holds(o.session, accepted');
      }
    } else {
      StoreInBounds(s, p.accepted);
      assert o.fate == Closed(false) && o.delivered == [];
    }
  }

  lemma EventKeeps(p: Peer, config: Config, e: Event)
    requires PeerInv(p)
    ensures PeerInv(OnEvent(p, config, e))
  {
    hide PacketCount;
    if e.Arrives? && e.frame.Data? && p.net.rx.Receiving? {
      DataKeeps(p, config, e.frame.sequence, e.frame.payload, e.answers, e.full);
    } else if e.Arrives? && e.frame.Rts? && !e.full {
      var s := OpenReceive(e.frame.pgn, e.frame.size, config);
      assert Holds(s, []);
    }
  }

  lemma {:induction false} EventsKeep(p: Peer, config: Config, events: seq<Event>)
    requires PeerInv(p)
    ensures PeerInv(OnEvents(p, config, events))
    decreases |events|
  {
    if events != [] {
      EventsKeep(p, config, events[..|events| - 1]);
      EventKeeps(OnEvents(p, config, events[..|events| - 1]), config, events[|events| - 1]);
    }
  }

  /** Whatever a peer sends, what is stored is what was received, and every delivered message
      consists of as many packets as its announced size needs. */
  lemma {:induction false} ReceiverIsExact(tx: Session, config: Config, events: seq<Event>)
    ensures var p := OnEvents(Peer(Net(tx, Open, NoSession, [], [], []), [], []), config, events);
            && (p.net.rx.Receiving? ==> Holds(p.net.rx.session, p.accepted))
            && |p.receipts| == |p.net.delivered|
            && forall i | 0 <= i < |p.receipts| :: Receipt(p.net.delivered[i], p.receipts[i])
  {
    EventsKeep(Peer(Net(tx, Open, NoSession, [], [], []), [], []), config, events);
  }

  /** The sender never goes back: when a grant is taken, the window it announces starts at the
      packet asked for exactly when that is the one behind the last packet sent. */
  lemma GrantIsServedIff(tx: Session, config: Config, pgn: u24, packets: u8, next: u24, answers: seq<bool>)
    requires tx.pgn == pgn && tx.state == WaitForClearToSend && next <= tx.TotalPackets() && packets > 0
    requires tx.LastPacket() < 0x100_0000 && Accepts(answers, 0)
    ensures var granted := OnCts(tx, pgn, packets, next, []);
            var sent := SendDpo(granted.session, config, answers).sent;
            && granted.fate.Open? && granted.session.state == SendDataPacketOffset
            && |sent| == 1 && sent[0].Dpo? && (sent[0].offset + 1 == next <==> next == tx.LastPacket() as int + 1)
  {
    hide PacketCount;
  }
}
