/** How a session of the extended transport protocol treats its partner: which frames it takes,
    how it refuses the others, and which limits its own frames keep. */
module EtpConduct {
  import opened Widths
  import opened Segmentation
  import opened EtpFrames
  import opened Etp
  import opened EtpNetwork

  /** The session is given up, nothing in it changes, and the partner is told the reason. */
  predicate Refuses(o: Outcome, s: Session, reason: u8, answers: seq<bool>) {
    && o.fate == Closed(false) && o.session == s && o.delivered == []
    && (Accepts(answers, 0) <==> o.sent != [] && o.sent[0] == Abort(reason, s.pgn))
    && (forall f | f in o.sent :: f.Abort? && f.reason == reason)
  }

  /** Two sessions are given up when the frame is about another parameter group. */
  predicate RefusesBoth(o: Outcome, s: Session, other: u24, reason: u8, answers: seq<bool>) {
    && s.pgn != other && Refuses(o, s, reason, answers)
    && (Accepts(answers, 1) <==> Abort(reason, other) in o.sent)
  }

  /** A grant is taken exactly when it is for this message and awaited. */
  lemma GrantTakenIff(s: Session, pgn: u24, packets: u8, next: u24, answers: seq<bool>)
    ensures var o := OnCts(s, pgn, packets, next, answers);
            && (o.fate.Open? <==> pgn == s.pgn && s.state == WaitForClearToSend && next <= s.TotalPackets())
            && (o.fate.Open? ==>
                  && o.sent == [] && o.delivered == [] && o.session.LastPacket() == s.LastPacket()
                  && o.session.ctsLimit == packets
                  && o.session.state == (if packets == 0 then WaitForClearToSend else SendDataPacketOffset))
            && (pgn != s.pgn ==> RefusesBoth(o, s, pgn, CLEAR_TO_SEND_WHILE_TRANSFER_IN_PROGRESS, answers))
            && (pgn == s.pgn && next > s.TotalPackets() ==> Refuses(o, s, CLEAR_TO_SEND_EXCEEDS_MESSAGE, answers))
            && (pgn == s.pgn && next <= s.TotalPackets() && s.state != WaitForClearToSend ==>
                  Refuses(o, s, CLEAR_TO_SEND_WHILE_TRANSFER_IN_PROGRESS, answers))
  {
    hide PacketCount;
    BothAborts(s.pgn, pgn, CLEAR_TO_SEND_WHILE_TRANSFER_IN_PROGRESS, answers);
  }

  lemma BothAborts(own: u24, other: u24, reason: u8, answers: seq<bool>)
    ensures var first := Offer(Abort(reason, own), answers);
            var second := if Accepts(answers, 1) then [Abort(reason, other)] else [];
            && (own != other ==> (Accepts(answers, 0) <==> first + second != [] && (first + second)[0] == Abort(reason, own)))
            && (own != other ==> (Accepts(answers, 1) <==> Abort(reason, other) in first + second))
            && forall f | f in first + second :: f.Abort? && f.reason == reason
  {
  }

  /** An announcement is taken exactly when it is awaited, within the grant and at the packet
      that was acknowledged. */
  lemma AnnouncementTakenIff(s: Session, pgn: u24, packets: u8, packetOffset: u24, answers: seq<bool>)
    ensures var o := OnDpo(s, pgn, packets, packetOffset, answers);
            && (o.fate.Open? <==> pgn == s.pgn && s.state == WaitForDataPacketOffset && packets <= s.ctsLimit
                                  && packetOffset == s.acknowledged)
            && (o.fate.Open? ==>
                  && o.sent == [] && o.delivered == [] && o.session.data == s.data
                  && o.session.LastPacket() == packetOffset && o.session.dpoPackets == packets
                  && o.session.state == (if packets == 0 then WaitForDataPacketOffset else WaitForDataTransferPacket))
            && (pgn != s.pgn ==> RefusesBoth(o, s, pgn, UNEXPECTED_DATA_PACKET_OFFSET_PGN, answers))
            && (pgn == s.pgn && s.state != WaitForDataPacketOffset ==> Refuses(o, s, UNEXPECTED_DATA_PACKET_OFFSET, answers))
            && (pgn == s.pgn && s.state == WaitForDataPacketOffset && packets > s.ctsLimit ==>
                  Refuses(o, s, DATA_PACKET_OFFSET_EXCEEDS_CLEAR_TO_SEND, answers))
            && (pgn == s.pgn && s.state == WaitForDataPacketOffset && packets <= s.ctsLimit && packetOffset != s.acknowledged ==>
                  Refuses(o, s, BAD_DATA_PACKET_OFFSET, answers))
  {
    BothAborts(s.pgn, pgn, UNEXPECTED_DATA_PACKET_OFFSET_PGN, answers);
  }

  /** A packet is taken exactly when it is the next one and there is room for it. */
  lemma PacketTakenIff(s: Session, sequence: u8, payload: Payload, answers: seq<bool>)
    ensures var o := OnData(s, sequence, payload, answers);
            && (o.fate != Closed(false) <==> s.state == WaitForDataTransferPacket && sequence == s.lastSequence as int + 1
                                             && Low32(7 * s.LastPacket() as int) < |s.data|)
            && (o.fate != Closed(false) ==> o.session.lastSequence == sequence && |o.session.data| == |s.data|)
            && (o.fate == Closed(true) <==> o.delivered == [o.session.data])
            && (o.fate == Closed(true) ==> o.sent == if Accepts(answers, 0) then [Eoma(|s.data|, s.pgn)] else [])
            && (o.fate.Open? ==> o.delivered == [] && forall f | f in o.sent :: f.Cts?)
            && (s.state != WaitForDataTransferPacket ==> Refuses(o, s, UNEXPECTED_DATA_TRANSFER_PACKET, answers))
            && (s.state == WaitForDataTransferPacket && sequence == s.lastSequence ==>
                  Refuses(o, s, DUPLICATE_SEQUENCE_NUMBER, answers))
            && (s.state == WaitForDataTransferPacket && sequence != s.lastSequence && sequence != s.lastSequence as int + 1 ==>
                  Refuses(o, s, BAD_SEQUENCE_NUMBER, answers))
  {
    hide PacketCount, StoreAt;
  }

  /** An acknowledgement that is not awaited is ignored; an awaited one ends the session, with
      success exactly when it names the right size. */
  lemma AcknowledgementIff(s: Session, size: u32)
    ensures var o := OnEoma(s, size);
            && o.sent == [] && o.delivered == []
            && (o.fate.Closed? <==> s.state == WaitForEndOfMessageAcknowledge)
            && (o.fate.Open? ==> o.session == s)
            && (o.fate == Closed(true) <==> s.state == WaitForEndOfMessageAcknowledge && size == |s.data|)
  {
  }

  // ---- limits ------------------------------------------------------------------------

  predicate Least(p: int, limits: seq<int>) { p in limits && forall i | 0 <= i < |limits| :: p <= limits[i] }

  /** A window has as many packets as its four limits allow, and starts behind the last one. */
  lemma AnnouncementIsLeast(s: Session, config: Config, answers: seq<bool>)
    requires Accepts(answers, 0)
    ensures var o := SendDpo(s, config, answers);
            && |o.sent| == 1 && o.sent[0].Dpo?
            && Least(o.sent[0].packets, [0xFF, s.Remaining(), s.ctsLimit, config.packetsPerDpo])
            && o.sent[0].offset == Low24(s.LastPacket()) && o.sent[0].pgn == s.pgn
            && o.session.dpoPackets == o.sent[0].packets
  {
    hide PacketCount;
    var limits: seq<int> := [0xFF, s.Remaining(), s.ctsLimit, config.packetsPerDpo];
    assert limits[0] == 0xFF && limits[1] == s.Remaining() && limits[2] == s.ctsLimit && limits[3] == config.packetsPerDpo;
  }

  lemma GrantIsLeast(s: Session, answers: seq<bool>)
    requires Accepts(answers, 0)
    ensures var o := SendCts(s, answers);
            && |o.sent| == 1 && o.sent[0].Cts?
            && Least(o.sent[0].packets, [s.Remaining(), s.ctsLimit])
            && o.sent[0].next == Low24(s.LastPacket() as int + 1) && o.sent[0].pgn == s.pgn
            && o.session.acknowledged == s.LastPacket()
  {
    hide PacketCount;
    var limits: seq<int> := [s.Remaining(), s.ctsLimit];
    assert limits[0] == s.Remaining() && limits[1] == s.ctsLimit;
  }

  /** One update sends as many packets as the window and the limit per update allow, unless the
      bus refuses one. */
  lemma UpdateIsLimited(s: Session, config: Config, answers: seq<bool>)
    ensures var sent := SendData(s, config, answers).sent;
            && |sent| <= s.DpoRemaining() && |sent| <= config.framesPerUpdate
            && (|sent| < s.DpoRemaining() && |sent| < config.framesPerUpdate ==> !Accepts(answers, |sent|))
            && forall i | 0 <= i < |sent| :: sent[i].Data? && sent[i].sequence == Low8(s.lastSequence as int + 1 + i)
  {
    hide PacketCount, WrappedPacket, Session.DpoRemaining, Low8;
    var sent := SendData(s, config, answers).sent;
    forall i | 0 <= i < |sent| ensures sent[i].Data? && sent[i].sequence == Low8(s.lastSequence as int + 1 + i) {
      Low8Step(s.lastSequence, i);
    }
  }

  /** After sending, the session waits for the acknowledgement exactly when the message is at its end,
      and for the next grant exactly when only the window is. */
  lemma WaitsIff(s: Session, config: Config, answers: seq<bool>)
    requires s.state == SendDataTransferPackets
    ensures var t := SendData(s, config, answers).session;
            && (t.state == WaitForEndOfMessageAcknowledge <==> t.Remaining() == 0)
            && (t.state == WaitForClearToSend <==> t.Remaining() != 0 && t.DpoRemaining() == 0)
            && (t.state == SendDataTransferPackets <==> t.Remaining() != 0 && t.DpoRemaining() != 0)
  {
    hide PacketCount, Session.NextData, Low8, Low32;
  }

  // ---- limits over runs --------------------------------------------------------------

  predicate GrantsWithin(ch: seq<Frame>, limit: u8) { forall i | 0 <= i < |ch| && ch[i].Cts? :: ch[i].packets <= limit }

  predicate WindowsWithin(ch: seq<Frame>, limit: u8) { forall i | 0 <= i < |ch| && ch[i].Dpo? :: ch[i].packets <= limit }

  predicate Limited(net: Net, configs: Configs) {
    && GrantsWithin(net.toTx, configs.rx.packetsPerDpo)
    && WindowsWithin(net.toRx, Min(configs.tx.packetsPerDpo, configs.rx.packetsPerDpo))
    && (net.rx.Receiving? ==> net.rx.session.ctsLimit == configs.rx.packetsPerDpo)
    && (net.tx.state == SendDataPacketOffset ==> net.tx.ctsLimit <= configs.rx.packetsPerDpo)
  }

  lemma TxUpdateLimited(net: Net, configs: Configs, answers: seq<bool>, expired: bool)
    requires Limited(net, configs) && net.txFate.Open?
    ensures Limited(Next(net, configs, TxUpdate(answers, expired)), configs)
  {
    hide PacketCount, WrappedPacket;
    if net.tx.state == SendDataTransferPackets {
      UpdateIsLimited(net.tx, configs.tx, answers);
    }
  }

  lemma RxFrameLimited(net: Net, configs: Configs, frame: Frame, answers: seq<bool>, full: bool)
    requires Limited(net, configs)
    ensures Limited(RxOnFrame(net, configs.rx, frame, answers, full), configs)
  {
    hide PacketCount, StoreAt;
  }

  lemma TxFrameLimited(net: Net, configs: Configs, frame: Frame, answers: seq<bool>)
    requires Limited(net, configs) && (frame.Cts? ==> frame.packets <= configs.rx.packetsPerDpo)
    ensures Limited(TxOnFrame(net, frame, answers), configs)
  {
    hide PacketCount;
  }

  lemma NextLimited(net: Net, configs: Configs, a: Action)
    requires Limited(net, configs)
    ensures Limited(Next(net, configs, a), configs)
  {
    hide PacketCount, RxOnFrame, TxOnFrame;
    match a
    case TxUpdate(answers, expired) =>
      if net.txFate.Open? {
        TxUpdateLimited(net, configs, answers, expired);
      }
    case DeliverToRx(answers, full) =>
      if net.toRx != [] {
        RxFrameLimited(net.(toRx := net.toRx[1..]), configs, OnBus(net.toRx[0]), answers, full);
      }
    case DeliverToTx(answers) =>
      if net.toTx != [] {
        RoundTrip(net.toTx[0]);
        TxFrameLimited(net.(toTx := net.toTx[1..]), configs, OnBus(net.toTx[0]), answers);
      }
    case _ =>
  }

  /** In every run no grant exceeds what the receiver's configuration allows, and no announced
      window what both configurations allow. */
  lemma {:induction false} WindowsAreLimited(message: Bytes, pgn: u24, configs: Configs, actions: seq<Action>)
    ensures Limited(Run(Start(message, pgn), configs, actions), configs)
    decreases |actions|
  {
    if actions != [] {
      WindowsAreLimited(message, pgn, configs, actions[..|actions| - 1]);
      NextLimited(Run(Start(message, pgn), configs, actions[..|actions| - 1]), configs, actions[|actions| - 1]);
    }
  }
}
