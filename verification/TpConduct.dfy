/** How a session of the transport protocol treats its partner: which frames it takes, how it
    refuses the others, and which limits its own frames keep. */
module TpConduct {
  import opened Widths
  import opened Segmentation
  import opened TpFrames
  import opened Tp
  import opened TpNetwork

  /** The session is given up, nothing in it changes, and a partner is told the reason. */
  predicate Refuses(o: Outcome, s: Session, reason: u8, answers: seq<bool>) {
    && o.fate == Closed(false) && o.session == s && o.delivered == []
    && (Accepts(answers, 0) && !s.broadcast <==> o.sent != [] && o.sent[0] == Abort(reason, s.pgn))
    && (forall f | f in o.sent :: f.Abort? && f.reason == reason)
  }

  /** A grant is taken exactly when it is for this message and awaited. */
  lemma GrantTakenIff(s: Session, pgn: u24, packets: u8, next: u8, answers: seq<bool>)
    requires !s.broadcast
    ensures var o := OnCts(s, pgn, packets, next, answers);
            && (o.fate.Open? <==> pgn == s.pgn && s.state == WaitForClearToSend && next <= s.TotalPackets())
            && (o.fate.Open? ==>
                  && o.sent == [] && o.delivered == [] && o.session.lastSequence == s.lastSequence
                  && o.session.ctsPackets == packets
                  && o.session.state == (if packets == 0 then WaitForClearToSend else SendDataTransferPackets))
            && (pgn != s.pgn ==>
                  Refuses(o, s, CLEAR_TO_SEND_WHILE_TRANSFER_IN_PROGRESS, answers)
                  && (Accepts(answers, 1) <==> Abort(CLEAR_TO_SEND_WHILE_TRANSFER_IN_PROGRESS, pgn) in o.sent))
            && (pgn == s.pgn && next > s.TotalPackets() ==> Refuses(o, s, BAD_SEQUENCE_NUMBER, answers))
            && (pgn == s.pgn && next <= s.TotalPackets() && s.state != WaitForClearToSend ==>
                  Refuses(o, s, CLEAR_TO_SEND_WHILE_TRANSFER_IN_PROGRESS, answers))
  {
    hide PacketCount8;
    BothAborts(s.pgn, pgn, CLEAR_TO_SEND_WHILE_TRANSFER_IN_PROGRESS, answers);
  }

  lemma BothAborts(own: u24, other: u24, reason: u8, answers: seq<bool>)
    ensures var first := Offer(Abort(reason, own), answers);
            var second := if Accepts(answers, 1) then [Abort(reason, other)] else [];
            && (own != other ==> (Accepts(answers, 0) <==> first + second != [] && (first + second)[0] == Abort(reason, own)))
            && (own != other ==> (Accepts(answers, 1) <==> Abort(reason, other) in first + second))
            && forall f | f in first + second :: f.Abort? && f.reason == reason
  {
  }

  /** A packet is taken exactly when it is the next one and there is room for it. */
  lemma PacketTakenIff(s: Session, sequence: u8, payload: Payload, answers: seq<bool>)
    ensures var o := OnData(s, sequence, payload, answers);
            && (o.fate != Closed(false) <==> s.state == WaitForDataTransferPacket && sequence == s.lastSequence as int + 1
                                             && 7 * s.lastSequence as int < |s.data|)
            && (o.fate != Closed(false) ==> o.session.lastSequence == sequence && |o.session.data| == |s.data|)
            && (o.fate == Closed(true) <==> o.delivered == [o.session.data])
            && (o.fate == Closed(true) ==>
                  o.sent == if Accepts(answers, 0) && !s.broadcast then [Eoma(|s.data|, s.TotalPackets(), s.pgn)] else [])
            && (o.fate.Open? ==> o.delivered == [] && forall f | f in o.sent :: f.Cts?)
            && (s.state != WaitForDataTransferPacket ==> Refuses(o, s, UNEXPECTED_DATA_TRANSFER_PACKET, answers))
            && (s.state == WaitForDataTransferPacket && sequence == s.lastSequence ==>
                  Refuses(o, s, DUPLICATE_SEQUENCE_NUMBER, answers))
            && (s.state == WaitForDataTransferPacket && sequence != s.lastSequence && sequence != s.lastSequence as int + 1 ==>
                  Refuses(o, s, BAD_SEQUENCE_NUMBER, answers))
            && (s.state == WaitForDataTransferPacket && sequence == s.lastSequence as int + 1 && 7 * s.lastSequence as int >= |s.data| ==>
                  Refuses(o, s, ANY_OTHER_ERROR, answers))
  {
    hide PacketCount8, StoreAt;
  }

  /** An acknowledgement that is not awaited is ignored; an awaited one is a success. */
  lemma AcknowledgementIff(s: Session)
    ensures var o := OnEoma(s);
            && o.sent == [] && o.delivered == []
            && (o.fate == Closed(true) <==> s.state == WaitForEndOfMessageAcknowledge)
            && (o.fate.Open? <==> s.state != WaitForEndOfMessageAcknowledge) && (o.fate.Open? ==> o.session == s)
  {
  }

  // ---- limits ------------------------------------------------------------------------

  /** A window has at most as many packets as the limit of the session and the message allow.
      It has fewer only where 16 packets stay below a limit that is not reached. */
  lemma GrantIsLimited(s: Session, answers: seq<bool>)
    requires Accepts(answers, 0)
    ensures var o := SendCts(s, answers);
            && |o.sent| == 1 && o.sent[0].Cts? && o.sent[0].pgn == s.pgn && o.sent[0].next == Low8(s.lastSequence as int + 1)
            && o.sent[0].packets <= s.ctsMax && o.sent[0].packets <= s.Remaining()
            && (o.sent[0].packets == s.ctsMax || o.sent[0].packets == s.Remaining()
                || (o.sent[0].packets == 16 < s.Remaining() <= s.ctsMax))
            && (16 < s.Remaining() <= s.ctsMax ==> o.sent[0].packets == 16)
            && o.session.ctsPackets == o.sent[0].packets && o.session.acknowledged == s.lastSequence
  {
    hide PacketCount8;
  }

  /** One update sends one packet of a broadcast, or as many as the window and the limit per
      update allow, unless the bus refuses one. */
  lemma UpdateIsLimited(s: Session, config: Config, answers: seq<bool>)
    ensures var sent := SendData(s, config, answers).sent;
            && (s.broadcast ==> |sent| == if Accepts(answers, 0) then 1 else 0)
            && (!s.broadcast ==> |sent| <= s.CtsRemaining() && |sent| <= config.framesPerUpdate)
            && (!s.broadcast && |sent| < s.CtsRemaining() && |sent| < config.framesPerUpdate ==> !Accepts(answers, |sent|))
            && forall i | 0 <= i < |sent| :: sent[i].Data? && sent[i].sequence == Low8(s.lastSequence as int + 1 + i)
  {
    hide PacketCount8, Packet, Session.CtsRemaining, Session.Remaining, Low8;
    var sent := SendData(s, config, answers).sent;
    forall i | 0 <= i < |sent| ensures sent[i].Data? && sent[i].sequence == Low8(s.lastSequence as int + 1 + i) {
      Low8Step(s.lastSequence, i);
    }
  }

  /** After sending, a broadcast is over exactly when the message is at its end. A connection then
      waits for the acknowledgement, and for the next grant exactly when only the window is. */
  lemma WaitsIff(s: Session, config: Config, answers: seq<bool>)
    requires s.state == SendDataTransferPackets
    ensures var o := SendData(s, config, answers);
            var t := o.session;
            && (if s.broadcast then (o.fate == Closed(true) <==> t.Remaining() == 0) && (o.fate.Open? <==> t.Remaining() != 0)
                else
                  && o.fate.Open?
                  && (t.state == WaitForEndOfMessageAcknowledge <==> t.Remaining() == 0)
                  && (t.state == WaitForClearToSend <==> t.Remaining() != 0 && t.CtsRemaining() == 0))
            && (t.state == s.state <==> s.broadcast || (t.Remaining() != 0 && t.CtsRemaining() != 0))
  {
    hide PacketCount8, Session.NextData, Low8;
  }

  // ---- limits over runs --------------------------------------------------------------

  predicate GrantsWithin(ch: seq<Frame>, limit: u8) { forall i | 0 <= i < |ch| && ch[i].Cts? :: ch[i].packets <= limit }

  predicate RequestsFor(ch: seq<Frame>, max: u8) {
    forall i | 0 <= i < |ch| :: !ch[i].Bam? && (ch[i].Rts? ==> ch[i].max == max)
  }

  predicate Limited(net: Net, configs: Configs) {
    var limit := Min(configs.tx.packetsPerCts, configs.rx.packetsPerCts);
    && !net.tx.broadcast && net.tx.state != SendBroadcastAnnounce && net.tx.state != SendClearToSend
    && net.tx.ctsMax == configs.tx.packetsPerCts && net.tx.ctsPackets <= limit
    && RequestsFor(net.toRx, configs.tx.packetsPerCts) && GrantsWithin(net.toTx, limit)
    && (net.rx.Receiving? ==> !net.rx.session.broadcast && net.rx.session.ctsMax == limit
                              && net.rx.session.state in {SendClearToSend, WaitForDataTransferPacket})
  }

  lemma TxUpdateLimited(net: Net, configs: Configs, answers: seq<bool>, expired: bool, early: bool)
    requires Limited(net, configs) && net.txFate.Open?
    ensures Limited(Next(net, configs, TxUpdate(answers, expired, early)), configs)
  {
    hide PacketCount8, Packet, Session.CtsRemaining, Session.Remaining;
    if net.tx.state == SendDataTransferPackets {
      UpdateIsLimited(net.tx, configs.tx, answers);
    }
  }

  lemma RxFrameLimited(net: Net, configs: Configs, frame: Frame, answers: seq<bool>, full: bool)
    requires Limited(net, configs) && !frame.Bam? && (frame.Rts? ==> frame.max == configs.tx.packetsPerCts)
    ensures Limited(RxOnFrame(net, configs.rx, frame, answers, full), configs)
  {
    hide PacketCount8, StoreAt;
  }

  lemma TxFrameLimited(net: Net, configs: Configs, frame: Frame, answers: seq<bool>)
    requires Limited(net, configs)
    requires frame.Cts? ==> frame.packets <= Min(configs.tx.packetsPerCts, configs.rx.packetsPerCts)
    ensures Limited(TxOnFrame(net, frame, answers), configs)
  {
    hide PacketCount8;
  }

  lemma NextLimited(net: Net, configs: Configs, a: Action)
    requires Limited(net, configs)
    ensures Limited(Next(net, configs, a), configs)
  {
    hide PacketCount8, RxOnFrame, TxOnFrame;
    match a
    case TxUpdate(answers, expired, early) =>
      if net.txFate.Open? {
        TxUpdateLimited(net, configs, answers, expired, early);
      }
    case DeliverToRx(i, keep, answers, full) =>
      if i < |net.toRx| {
        RoundTrip(net.toRx[i]);
        RxFrameLimited(if keep then net else net.(toRx := Without(net.toRx, i)), configs, OnBus(net.toRx[i]), answers, full);
      }
    case DeliverToTx(i, keep, answers) =>
      if i < |net.toTx| {
        RoundTrip(net.toTx[i]);
        TxFrameLimited(if keep then net else net.(toTx := Without(net.toTx, i)), configs, OnBus(net.toTx[i]), answers);
      }
    case _ =>
  }

  /** In every run of a connection no grant exceeds what the configurations of both sides allow. */
  lemma {:induction false} GrantsAreLimited(message: Bytes, pgn: u24, configs: Configs, actions: seq<Action>)
    ensures Limited(Run(Start(message, pgn, false, configs.tx), configs, actions), configs)
    decreases |actions|
  {
    if actions != [] {
      var start := Start(message, pgn, false, configs.tx);
      GrantsAreLimited(message, pgn, configs, actions[..|actions| - 1]);
      NextLimited(Run(start, configs, actions[..|actions| - 1]), configs, actions[|actions| - 1]);
    }
  }
}
