/** Every run of the extended transport protocol keeps the invariant of `EtpNetwork`. */
module EtpSafety {
  import opened Widths
  import opened Segmentation
  import opened EtpFrames
  import opened Etp
  import opened EtpNetwork

  // ---- losing a frame ----------------------------------------------------------------

  lemma LoseToRxKeeps(net: Net, message: Bytes, i: nat)
    requires Inv(net, message) && i < |net.toRx|
    ensures Inv(net.(toRx := Without(net.toRx, i)), message)
  {
    hide PacketCount;
    var ch := Without(net.toRx, i);
    forall j | 0 <= j < |ch| ensures ch[j] == net.toRx[if j < i then j else j + 1] {
    }
    var net' := net.(toRx := ch);
    if net.rx.Receiving? {
      assert Linked(net');
    }
  }

  lemma LoseToTxKeeps(net: Net, message: Bytes, i: nat)
    requires Inv(net, message) && i < |net.toTx|
    ensures Inv(net.(toTx := Without(net.toTx, i)), message)
  {
    hide PacketCount;
    var ch := Without(net.toTx, i);
    forall j | 0 <= j < |ch| ensures ch[j] == net.toTx[if j < i then j else j + 1] {
    }
    var net' := net.(toTx := ch);
    if net.rx.Receiving? {
      assert Linked(net');
    }
  }

  // ---- the sender runs ---------------------------------------------------------------

  /** Closing the sender, with or without an abort frame, only weakens what is claimed of it. */
  lemma TxClosesKeeps(net: Net, message: Bytes, sent: seq<Frame>)
    requires Inv(net, message) && net.txFate.Open?
    requires forall f | f in sent :: f.Abort?
    ensures Inv(net.(txFate := Closed(false), toRx := net.toRx + sent), message)
  {
    hide PacketCount;
    var net' := net.(txFate := Closed(false), toRx := net.toRx + sent);
    var ch := net'.toRx;
    forall i | 0 <= i < |ch| ensures if i < |net.toRx| then ch[i] == net.toRx[i] else ch[i].Abort? {
    }
    if net.rx.Receiving? {
      assert Linked(net');
    }
  }

  lemma TxSendsRtsKeeps(net: Net, message: Bytes, answers: seq<bool>)
    requires Inv(net, message) && net.txFate.Open? && net.tx.state == SendRequestToSend
    ensures Inv(TxAfter(net, SendRts(net.tx, answers)), message)
  {
    var net' := TxAfter(net, SendRts(net.tx, answers));
    if Accepts(answers, 0) {
      assert net'.toRx == net.toRx + [Rts(|message|, net.tx.pgn)];
      assert !net.rx.Receiving?;
    } else {
      assert net'.toRx == net.toRx;
    }
  }

  lemma TxSendsDpoKeeps(net: Net, message: Bytes, config: Config, answers: seq<bool>)
    requires Inv(net, message) && net.txFate.Open? && net.tx.state == SendDataPacketOffset
    ensures Inv(TxAfter(net, SendDpo(net.tx, config, answers)), message)
  {
    hide PacketCount;
    var net' := TxAfter(net, SendDpo(net.tx, config, answers));
    if !Accepts(answers, 0) {
      assert net'.toRx == net.toRx;
    } else if net.rx.Receiving? {
      var packet := net.rx.session.LastPacket();
      assert net'.toRx == net.toRx + [Dpo(net'.tx.dpoPackets, Low24(net'.tx.offset), net'.tx.pgn)];
      assert BeforeWindow(net, packet);
      assert WithinWindow(net', packet);
    }
  }

  /** In a window the 8-bit subtraction does not wrap. */
  lemma RemainingInWindow(s: Session)
    requires s.offset == s.acknowledged && s.lastSequence <= s.dpoPackets
    requires s.offset as int + s.dpoPackets as int < 0x100_0000
    ensures s.DpoRemaining() == s.dpoPackets - s.lastSequence
  {
    assert s.LastPacket() == s.lastSequence as int + s.offset as int;
  }

  lemma NthPacket(s: Session, i: nat)
    requires s.lastSequence + i < s.dpoPackets && s.offset as int + s.dpoPackets as int < 0x100_0000
    ensures s.Advance(i).NextData() == Data(s.lastSequence + i + 1, Packet(s.data, s.offset as int + s.lastSequence as int + i))
  {
    var t := s.Advance(i);
    assert t.lastSequence == s.lastSequence + i;
    assert t.LastPacket() == s.offset as int + s.lastSequence as int + i;
    NoWrapBelowMaximum(s.data, t.LastPacket());
  }

  /** Within a window the sender sends the packets that follow the last one it sent. */
  lemma SentPackets(tx: Session, config: Config, answers: seq<bool>)
    requires tx.offset == tx.acknowledged && tx.lastSequence <= tx.dpoPackets
    requires tx.offset as int + tx.dpoPackets as int < 0x100_0000
    ensures var o := SendData(tx, config, answers);
            && tx.lastSequence + |o.sent| <= tx.dpoPackets
            && o.session.lastSequence == tx.lastSequence + |o.sent|
            && (forall i | 0 <= i < |o.sent| ::
                  o.sent[i] == Data(tx.lastSequence + i + 1, Packet(tx.data, tx.offset as int + tx.lastSequence as int + i)))
  {
    hide PacketCount;
    var k := Streak(answers, FramesToSend(tx, config));
    RemainingInWindow(tx);
    assert tx.lastSequence + k <= tx.dpoPackets;
    forall i | 0 <= i < k
      ensures tx.Advance(i).NextData() == Data(tx.lastSequence + i + 1, Packet(tx.data, tx.offset as int + tx.lastSequence as int + i))
    {
      NthPacket(tx, i);
    }
  }

  /** After sending, the state says whether the window or the message is exhausted. */
  lemma WindowAfterSending(tx: Session, k: nat)
    requires tx.offset == tx.acknowledged && tx.state == SendDataTransferPackets
    requires tx.lastSequence + k <= tx.dpoPackets && tx.offset as int + tx.dpoPackets as int <= tx.TotalPackets() < 0x100_0000
    ensures var t := AfterSending(tx.Advance(k));
            && t == tx.(lastSequence := tx.lastSequence + k, state := t.state)
            && match t.state
               case WaitForEndOfMessageAcknowledge => t.LastPacket() == t.TotalPackets()
               case WaitForClearToSend => t.lastSequence == t.dpoPackets && t.LastPacket() < t.TotalPackets()
               case SendDataTransferPackets => t.lastSequence < t.dpoPackets
               case _ => false
  {
    var t := tx.Advance(k);
    RemainingInWindow(t);
    assert t.LastPacket() == t.lastSequence as int + t.offset as int;
  }

  /** Appending the next packets of the window to the channel. */
  lemma WindowGrows(tx: Session, tx': Session, ch: seq<Frame>, sent: seq<Frame>, rank: nat)
    requires WindowFrames(tx, ch) && Ascending(ch)
    requires tx' == tx.(lastSequence := tx'.lastSequence, state := tx'.state)
    requires tx'.lastSequence == tx.lastSequence + |sent|
    requires forall i | 0 <= i < |sent| ::
               sent[i] == Data(tx.lastSequence + i + 1, Packet(tx.data, tx.offset as int + tx.lastSequence as int + i))
    ensures WindowFrames(tx', ch + sent) && Ascending(ch + sent)
    ensures rank <= tx.lastSequence && After(ch, rank) ==> After(ch + sent, rank)
  {
    var all := ch + sent;
    forall i | 0 <= i < |all| ensures FromWindow(tx', all[i]) {
      if i < |ch| {
        assert FromWindow(tx, ch[i]);
      }
    }
    forall i, j | 0 <= i < j < |all| && InWindow(all[i]) && InWindow(all[j]) ensures Rank(all[i]) < Rank(all[j]) {
      if i < |ch| {
        assert FromWindow(tx, ch[i]);
      }
    }
  }

  lemma TxSendsDataKeeps(net: Net, message: Bytes, config: Config, answers: seq<bool>)
    requires Inv(net, message) && net.txFate.Open? && net.tx.state == SendDataTransferPackets
    ensures Inv(TxAfter(net, SendData(net.tx, config, answers)), message)
  {
    hide PacketCount;
    var o := SendData(net.tx, config, answers);
    var net' := TxAfter(net, o);
    if net.rx.Receiving? {
      assert WithinWindow(net, net.tx.offset);
      SentPackets(net.tx, config, answers);
      WindowAfterSending(net.tx, |o.sent|);
      WindowGrows(net.tx, o.session, net.toRx, o.sent, net.rx.session.lastSequence);
      assert WithinWindow(net', net.tx.offset);
      assert NoRts(net'.toRx);
      assert Linked(net');
    } else {
      forall i | 0 <= i < |o.sent| ensures o.sent[i].Data? {
      }
      assert NoRts(net'.toRx);
    }
  }

  lemma TxUpdateKeeps(net: Net, message: Bytes, config: Config, answers: seq<bool>, expired: bool)
    requires Inv(net, message) && net.txFate.Open?
    ensures Inv(TxAfter(net, Update(net.tx, config, answers, expired)), message)
  {
    hide PacketCount;
    var o := Update(net.tx, config, answers, expired);
    match net.tx.state
    case SendRequestToSend => TxSendsRtsKeeps(net, message, answers);
    case SendDataPacketOffset => TxSendsDpoKeeps(net, message, config, answers);
    case SendDataTransferPackets => TxSendsDataKeeps(net, message, config, answers);
    case SendClearToSend =>
      assert !net.rx.Receiving?;
      var net' := TxAfter(net, o);
    case _ =>
      if o.fate.Closed? {
        TxClosesKeeps(net, message, o.sent);
      } else {
        assert TxAfter(net, o) == net by { assert net.toRx + [] == net.toRx; }
      }
  }

  // ---- the receiver runs -------------------------------------------------------------

  lemma RxClosesKeeps(net: Net, message: Bytes, sent: seq<Frame>)
    requires Inv(net, message)
    requires forall f | f in sent :: f.Abort?
    ensures Inv(net.(rx := NoSession, toTx := net.toTx + sent), message)
  {
    var ch := net.toTx + sent;
    forall i | 0 <= i < |ch| ensures if i < |net.toTx| then ch[i] == net.toTx[i] else ch[i].Abort? {
    }
  }

  lemma RxSendsCtsKeeps(net: Net, message: Bytes, answers: seq<bool>)
    requires Inv(net, message) && net.rx.Receiving? && net.rx.session.state == SendClearToSend
    ensures Inv(RxAfter(net, SendCts(net.rx.session, answers)), message)
  {
    hide PacketCount;
    var net' := RxAfter(net, SendCts(net.rx.session, answers));
    assert net'.delivered == net.delivered;
    if Accepts(answers, 0) {
      var packet := net.rx.session.LastPacket();
      assert net'.rx.session.LastPacket() == packet;
      assert BeforeWindow(net', packet);
      assert Linked(net');
    } else {
      assert net' == net by { assert net.toTx + [] == net.toTx; }
    }
  }

  lemma RxUpdateKeeps(net: Net, message: Bytes, config: Config, answers: seq<bool>, expired: bool)
    requires Inv(net, message) && net.rx.Receiving?
    ensures Inv(RxAfter(net, Update(net.rx.session, config, answers, expired)), message)
  {
    var o := Update(net.rx.session, config, answers, expired);
    assert o.delivered == [] && net.delivered + [] == net.delivered && net.toTx + [] == net.toTx;
    if o.fate.Closed? {
      RxClosesKeeps(net, message, o.sent);
    } else if net.rx.session.state == SendClearToSend {
      RxSendsCtsKeeps(net, message, answers);
    }
  }

  // ---- a frame reaches the receiver --------------------------------------------------

  /** What is known of the head of the channel and of the frames behind it. */
  predicate Popped(net: Net, message: Bytes, f: Frame) {
    && Inv(net, message)
    && Inv(net.(toRx := [f] + net.toRx), message)
  }

  lemma PopToRx(net: Net, message: Bytes)
    requires Inv(net, message) && net.toRx != []
    ensures Popped(net.(toRx := net.toRx[1..]), message, net.toRx[0])
  {
    LoseToRxKeeps(net, message, 0);
    assert Without(net.toRx, 0) == net.toRx[1..];
    assert [net.toRx[0]] + net.toRx[1..] == net.toRx;
  }

  /** With the receive session gone and no RTS under way, nothing more is claimed. */
  lemma RxOnRtsKeeps(net: Net, message: Bytes, config: Config, size: u32, pgn: u24, answers: seq<bool>, full: bool)
    requires Popped(net, message, Rts(size, pgn))
    ensures Inv(RxOnRts(net, config, size, pgn, answers, full), message)
  {
    var before := net.(toRx := [Rts(size, pgn)] + net.toRx);
    assert before.toRx[0].Rts? && !NoRts(before.toRx);
    assert Untouched(before) && size == |message| && pgn == net.tx.pgn;
    forall i | 0 <= i < |net.toRx| ensures !net.toRx[i].Rts? && !InWindow(net.toRx[i]) {
      assert before.toRx[i + 1] == net.toRx[i];
    }
    if full {
      RxClosesKeeps(net, message, Offer(Abort(ALREADY_IN_CM_SESSION, pgn), answers));
    } else {
      var joined := net.(rx := Receiving(OpenReceive(pgn, size, config)));
      assert Filled(|message|, 0) == 0;
      assert BeforeWindow(joined, 0);
      assert Linked(joined);
      RxSendsCtsKeeps(joined, message, answers);
      assert RxOnRts(net, config, size, pgn, answers, full) == RxAfter(joined, SendCts(joined.rx.session, answers));
    }
  }

  lemma RxOnDpoKeeps(net: Net, message: Bytes, packets: u8, packetOffset: u24, pgn: u24, answers: seq<bool>)
    requires Popped(net, message, Dpo(packets, packetOffset, pgn)) && net.rx.Receiving?
    ensures Inv(RxAfter(net, OnDpo(net.rx.session, pgn, packets, packetOffset, answers)), message)
  {
    hide PacketCount, Packet, StoreAt;
    var f := Dpo(packets, packetOffset, pgn);
    var before := net.(toRx := [f] + net.toRx);
    var rx := net.rx.session;
    var o := OnDpo(rx, pgn, packets, packetOffset, answers);
    var net' := RxAfter(net, o);
    assert net.delivered + [] == net.delivered;
    assert before.toRx[0] == f && FromWindow(net.tx, f);
    if o.fate.Closed? {
      RxClosesKeeps(net, message, o.sent);
    } else {
      assert net'.toTx == net.toTx;
      assert !NoWindow(before.toRx) && WithinWindow(before, rx.LastPacket());
      forall i | 0 <= i < |net.toRx| && InWindow(net.toRx[i]) ensures 0 < Rank(net.toRx[i]) {
        assert before.toRx[i + 1] == net.toRx[i];
      }
      assert o.session.LastPacket() == rx.LastPacket();
      assert Linked(net');
    }
  }

  /** One more packet in a window: no counter of the session wraps. */
  lemma OneMorePacket(rx: Session, t: Session)
    requires Counters(rx, rx.TotalPackets()) && rx.acknowledged == rx.offset && rx.lastSequence < rx.dpoPackets
    requires rx.LastPacket() < rx.TotalPackets() && rx.offset as int + rx.dpoPackets as int < 0x100_0000
    requires t == rx.(data := t.data, lastSequence := rx.lastSequence + 1) && |t.data| == |rx.data|
    ensures t.LastPacket() == rx.LastPacket() + 1 <= t.TotalPackets() == rx.TotalPackets()
    ensures t.Remaining() == t.TotalPackets() - t.LastPacket()
    ensures t.DpoRemaining() == t.dpoPackets - t.lastSequence
  {
    assert t.LastPacket() == rx.LastPacket() + 1;
    RemainingInWindow(t);
  }

  lemma StoresNextPacket(rx: Session, message: Bytes)
    requires |rx.data| == |message| && rx.lastSequence < 0xFF
    requires rx.LastPacket() < PacketCount(|message|) < 0x100_0000
    requires rx.data[..Filled(|message|, rx.LastPacket())] == message[..Filled(|message|, rx.LastPacket())]
    ensures DataIndex(rx) == 7 * rx.LastPacket() < |rx.data|
    ensures var t := Accept(rx, rx.lastSequence + 1, Packet(message, rx.LastPacket()));
            t.data[..Filled(|message|, rx.LastPacket() + 1)] == message[..Filled(|message|, rx.LastPacket() + 1)]
  {
    var k := rx.LastPacket();
    assert 7 * k < |message|;
    assert DataIndex(rx) == 7 * k;
    StoreExtends(rx.data, message, k);
  }

  /** A packet in sequence is the one the sender cut at that place. */
  lemma RxStores(net: Net, message: Bytes, sequence: u8, payload: Payload)
    requires Popped(net, message, Data(sequence, payload)) && net.rx.Receiving?
    requires net.rx.session.state == WaitForDataTransferPacket && sequence == net.rx.session.lastSequence as int + 1
    ensures payload == Packet(message, net.rx.session.LastPacket())
    ensures sequence <= net.tx.lastSequence && After(net.toRx, sequence)
  {
    var f := Data(sequence, payload);
    var before := net.(toRx := [f] + net.toRx);
    assert before.toRx[0] == f && FromWindow(net.tx, f);
    forall i | 0 <= i < |net.toRx| && InWindow(net.toRx[i]) ensures sequence < Rank(net.toRx[i]) {
      assert before.toRx[i + 1] == net.toRx[i];
    }
  }

  lemma RxCompletesKeeps(net: Net, message: Bytes, t: Session, answers: seq<bool>)
    requires Inv(net, message) && net.rx.Receiving?
    requires t.data == message
    ensures Inv(RxAfter(net, Outcome(t, Offer(Eoma(|t.data|, t.pgn), answers), Closed(true), [t.data])), message)
  {
    assert [] + [message] == [message];
  }

  /** `t` is the receive session after it stored the next packet of the message. */
  predicate Stored(net: Net, message: Bytes, t: Session) {
    && Inv(net, message) && net.rx.Receiving? && net.rx.session.state == WaitForDataTransferPacket
    && |t.data| == |message| && t == net.rx.session.(data := t.data, lastSequence := t.lastSequence)
    && t.LastPacket() == net.rx.session.LastPacket() + 1 <= t.TotalPackets()
    && t.lastSequence == net.rx.session.lastSequence + 1 <= net.tx.lastSequence
    && t.Remaining() == t.TotalPackets() - t.LastPacket()
    && t.DpoRemaining() == t.dpoPackets - t.lastSequence
    && t.data[..Filled(|message|, t.LastPacket())] == message[..Filled(|message|, t.LastPacket())]
    && After(net.toRx, t.lastSequence)
  }

  lemma RxAfterDataKeeps(net: Net, message: Bytes, t: Session, answers: seq<bool>)
    requires Stored(net, message, t)
    ensures Inv(RxAfter(net, AfterData(t, answers)), message)
  {
    hide PacketCount;
    assert net.delivered + [] == net.delivered && net.toTx + [] == net.toTx;
    if t.Remaining() == 0 {
      AllFilled(|message|, t.LastPacket());
      assert t.data == message;
      RxCompletesKeeps(net, message, t, answers);
    } else if t.DpoRemaining() == 0 {
      var net' := net.(rx := Receiving(t.(state := SendClearToSend)));
      WindowExhausted(net, t);
      assert BeforeWindow(net', t.LastPacket());
      assert Linked(net');
      RxSendsCtsKeeps(net', message, answers);
      assert RxAfter(net, AfterData(t, answers)) == RxAfter(net', SendCts(net'.rx.session, answers));
    } else {
      assert Linked(net.(rx := Receiving(t)));
    }
  }

  lemma RxOnDataKeeps(net: Net, message: Bytes, sequence: u8, payload: Payload, answers: seq<bool>)
    requires Popped(net, message, Data(sequence, payload)) && net.rx.Receiving?
    ensures Inv(RxAfter(net, OnData(net.rx.session, sequence, payload, answers)), message)
  {
    hide PacketCount;
    var rx := net.rx.session;
    var o := OnData(rx, sequence, payload, answers);
    if rx.state != WaitForDataTransferPacket || sequence != rx.lastSequence as int + 1 {
      assert net.delivered + [] == net.delivered;
      RxClosesKeeps(net, message, o.sent);
    } else {
      RxStores(net, message, sequence, payload);
      StoresNextPacket(rx, message);
      var t := Accept(rx, sequence, payload);
      OneMorePacket(rx, t);
      RxAfterDataKeeps(net, message, t, answers);
    }
  }

  /** The last packet of a window leaves no frame of that window in the channel, and the
      sender waiting for the next CTS. */
  lemma WindowExhausted(net: Net, t: Session)
    requires net.rx.Receiving? && Linked(net) && net.rx.session.state == WaitForDataTransferPacket
    requires t == net.rx.session.(data := t.data, lastSequence := t.lastSequence)
    requires t.lastSequence == net.tx.lastSequence == t.dpoPackets || t.lastSequence == t.dpoPackets <= net.tx.lastSequence
    requires After(net.toRx, t.lastSequence) && t.LastPacket() < t.TotalPackets() == net.tx.TotalPackets()
    ensures BeforeWindow(net, t.LastPacket()) && (net.txFate.Open? ==> net.tx.state == WaitForClearToSend)
  {
    forall i | 0 <= i < |net.toRx| ensures !InWindow(net.toRx[i]) {
      assert FromWindow(net.tx, net.toRx[i]);
    }
  }

  lemma DeliverToRxKeeps(net: Net, message: Bytes, config: Config, answers: seq<bool>, full: bool)
    requires Inv(net, message) && net.toRx != []
    ensures Inv(RxOnFrame(net.(toRx := net.toRx[1..]), config, net.toRx[0], answers, full), message)
  {
    var f := net.toRx[0];
    var rest := net.(toRx := net.toRx[1..]);
    PopToRx(net, message);
    match f
    case Rts(size, pgn) => RxOnRtsKeeps(rest, message, config, size, pgn, answers, full);
    case Dpo(packets, packetOffset, pgn) =>
      if rest.rx.Receiving? {
        RxOnDpoKeeps(rest, message, packets, packetOffset, pgn, answers);
      }
    case Data(sequence, payload) =>
      if rest.rx.Receiving? {
        RxOnDataKeeps(rest, message, sequence, payload, answers);
      }
    case Abort(reason, pgn) =>
      RxClosesKeeps(rest, message, []);
      assert rest.toTx + [] == rest.toTx;
    case _ =>
  }

  // ---- a frame reaches the sender ----------------------------------------------------

  /** The CTS that a waiting sender receives asks for the packet it is about to send. */
  lemma CtsAsksForNext(net: Net, message: Bytes, f: Frame)
    requires Inv(net.(toTx := [f] + net.toTx), message) && f.Cts?
    requires net.txFate.Open? && net.rx.Receiving?
    ensures BeforeWindow(net, net.rx.session.LastPacket()) && NoCts(net.toTx)
    ensures f.next == net.rx.session.LastPacket() + 1
    ensures net.rx.session.state == WaitForDataPacketOffset && net.tx.state == WaitForClearToSend
  {
    var before := net.(toTx := [f] + net.toTx);
    assert before.toTx[0] == f && !NoCts(before.toTx);
    assert BeforeWindow(before, net.rx.session.LastPacket());
    forall i | 0 <= i < |net.toTx| ensures !net.toTx[i].Cts? {
      assert before.toTx[i + 1] == net.toTx[i];
    }
  }

  lemma TxTakesCts(net: Net, message: Bytes, tx': Session)
    requires Inv(net, message) && net.txFate.Open? && net.rx.Receiving?
    requires net.rx.session.state == WaitForDataPacketOffset && net.tx.state == WaitForClearToSend
    requires BeforeWindow(net, net.rx.session.LastPacket()) && NoCts(net.toTx)
    requires tx' == net.tx.(acknowledged := net.rx.session.LastPacket(), ctsLimit := tx'.ctsLimit, state := tx'.state)
    requires tx'.state == SendDataPacketOffset || tx'.state == WaitForClearToSend
    ensures Inv(net.(tx := tx'), message)
  {
    hide PacketCount;
    var net' := net.(tx := tx');
    assert BeforeWindow(net', net.rx.session.LastPacket());
    assert Linked(net');
  }

  lemma TxOnCtsKeeps(net: Net, message: Bytes, pgn: u24, packets: u8, next: u24, answers: seq<bool>)
    requires Inv(net, message) && Inv(net.(toTx := [Cts(packets, next, pgn)] + net.toTx), message) && net.txFate.Open?
    ensures Inv(TxAfter(net, OnCts(net.tx, pgn, packets, next, answers)), message)
  {
    hide PacketCount, Packet, Filled;
    var f := Cts(packets, next, pgn);
    var o := OnCts(net.tx, pgn, packets, next, answers);
    assert net.toRx + [] == net.toRx;
    if o.fate.Closed? {
      TxClosesKeeps(net, message, o.sent);
    } else if net.rx.Receiving? {
      CtsAsksForNext(net, message, f);
      TxTakesCts(net, message, o.session);
    } else {
      assert !NoCts([f] + net.toTx) by { assert ([f] + net.toTx)[0] == f; }
    }
  }

  lemma TxOnEomaKeeps(net: Net, message: Bytes, pgn: u24, size: u32)
    requires Inv(net, message) && Inv(net.(toTx := [Eoma(size, pgn)] + net.toTx), message) && net.txFate.Open?
    ensures Inv(TxAfter(net, OnEoma(net.tx, size)), message)
  {
    var before := net.(toTx := [Eoma(size, pgn)] + net.toTx);
    assert net.toRx + [] == net.toRx;
    assert before.toTx[0].Eoma? && !NoEoma(before.toTx);
    assert net.delivered == [message] && !net.rx.Receiving?;
  }

  lemma DeliverToTxKeeps(net: Net, message: Bytes, answers: seq<bool>)
    requires Inv(net, message) && net.toTx != []
    ensures Inv(TxOnFrame(net.(toTx := net.toTx[1..]), net.toTx[0], answers), message)
  {
    hide Inv;
    var f := net.toTx[0];
    var rest := net.(toTx := net.toTx[1..]);
    LoseToTxKeeps(net, message, 0);
    assert Without(net.toTx, 0) == net.toTx[1..];
    assert rest.(toTx := [f] + rest.toTx) == net by { assert [f] + net.toTx[1..] == net.toTx; }
    if rest.txFate.Open? {
      match f
      case Cts(packets, next, pgn) => TxOnCtsKeeps(rest, message, pgn, packets, next, answers);
      case Eoma(size, pgn) => TxOnEomaKeeps(rest, message, pgn, size);
      case Abort(reason, pgn) =>
        TxClosesKeeps(rest, message, []);
        assert rest.toRx + [] == rest.toRx;
      case _ =>
    }
  }

  // ---- whole runs --------------------------------------------------------------------

  lemma {:induction false} NextKeeps(net: Net, message: Bytes, configs: Configs, a: Action)
    requires Inv(net, message)
    ensures Inv(Next(net, configs, a), message)
  {
    hide Inv;
    match a
    case TxUpdate(answers, expired) =>
      if net.txFate.Open? {
        TxUpdateKeeps(net, message, configs.tx, answers, expired);
      }
    case RxUpdate(answers, expired) =>
      if net.rx.Receiving? {
        RxUpdateKeeps(net, message, configs.rx, answers, expired);
      }
    case TxAddressLost =>
      if net.txFate.Open? {
        TxClosesKeeps(net, message, []);
        assert net.toRx + [] == net.toRx;
      }
    case RxAddressLost =>
      RxClosesKeeps(net, message, []);
      assert net.toTx + [] == net.toTx;
    case DeliverToRx(answers, full) =>
      if net.toRx != [] {
        RoundTrip(net.toRx[0]);
        DeliverToRxKeeps(net, message, configs.rx, answers, full);
      }
    case DeliverToTx(answers) =>
      if net.toTx != [] {
        RoundTrip(net.toTx[0]);
        DeliverToTxKeeps(net, message, answers);
      }
    case LoseToRx(i) =>
      if i < |net.toRx| {
        LoseToRxKeeps(net, message, i);
      }
    case LoseToTx(i) =>
      if i < |net.toTx| {
        LoseToTxKeeps(net, message, i);
      }
  }

  lemma {:induction false} RunKeeps(net: Net, message: Bytes, configs: Configs, actions: seq<Action>)
    requires Inv(net, message)
    ensures Inv(Run(net, configs, actions), message)
    decreases |actions|
  {
    if actions != [] {
      RunKeeps(net, message, configs, actions[..|actions| - 1]);
      NextKeeps(Run(net, configs, actions[..|actions| - 1]), message, configs, actions[|actions| - 1]);
    }
  }

  /** Safety: whatever happens on the bus, at most one message is delivered, and it is the
      sender's message byte for byte. */
  lemma {:induction false} Safety(message: Bytes, pgn: u24, configs: Configs, actions: seq<Action>)
    requires IsEtpMessage(message)
    ensures var delivered := Run(Start(message, pgn), configs, actions).delivered;
            delivered == [] || delivered == [message]
  {
    RunKeeps(Start(message, pgn), message, configs, actions);
  }

  /** Agreement: a sender that reports success knows that the message has arrived. */
  lemma {:induction false} Agreement(message: Bytes, pgn: u24, configs: Configs, actions: seq<Action>)
    requires IsEtpMessage(message)
    ensures var net := Run(Start(message, pgn), configs, actions);
            net.txFate == Closed(true) ==> net.delivered == [message]
  {
    RunKeeps(Start(message, pgn), message, configs, actions);
  }
}
