/** The table of active sessions of one extended transport protocol manager. In every run
    no two sessions share source and destination, receive sessions stay within the
    configured number, and the owner of a transmit session is told its result once,
    when the session leaves the table. */
module EtpManagers {
  import opened Widths
  import opened EtpFrames
  import opened Etp
  import opened EtpSessions
  import opened SessionTable

  /** What the environment decides about one session during an update. */
  datatype Choice = Choice(answers: seq<bool>, expired: bool, sourceValid: bool, destinationValid: bool)

  function PairOf(s: EtpSession): (ControlFunction, ControlFunction) { (s.source, s.destination) }

  predicate Receives(s: EtpSession) { s.direction == Receive }

  /** What a replaced session's partner is sent, and the answers this leaves for the rest of the call. */
  datatype Replaced = Replaced(sent: seq<Frame>, rest: seq<bool>)

  function AbortOld(t: EtpSession, pgn: u24, answers: seq<bool>): Replaced
  {
    if t.pgn == pgn then Replaced([], answers)
    else Replaced(Offer(Abort(ALREADY_IN_CM_SESSION, t.pgn), answers), if |answers| > 0 then answers[1..] else answers)
  }

  class EtpManager {
    const config: Config
    const maxSessions: nat
    var activeSessions: seq<EtpSession>

    /** The completion callbacks made so far: whose, and with which result. */
    var completed: seq<EtpSession>
    var successes: seq<bool>

    /** Every transmit session that was ever accepted. */
    ghost var started: seq<EtpSession>

    ghost predicate Valid()
      reads this
    {
      && Distinct(activeSessions) && DistinctBy(activeSessions, PairOf) && Count(activeSessions, Receives) <= maxSessions
      && Distinct(started) && Distinct(completed) && |completed| == |successes|
      && (forall s | s in completed :: s in started && s !in activeSessions)
      && (forall s | s in activeSessions && s.direction == Transmit :: s in started)
      && (forall s | s in started :: s in activeSessions || s in completed)
      && (forall s | s in started :: s.direction == Transmit)
    }

    constructor (config: Config, maxSessions: nat)
      ensures Valid() && activeSessions == [] && started == []
    {
      this.config, this.maxSessions := config, maxSessions;
      activeSessions, completed, successes, started := [], [], [], [];
    }

    method GetSession(source: ControlFunction, destination: ControlFunction) returns (session: EtpSession?)
      ensures session == null <==> forall s | s in activeSessions :: !s.Matches(source, destination)
      ensures session != null ==> session in activeSessions && session.Matches(source, destination)
    {
      for i := 0 to |activeSessions|
        invariant forall j | 0 <= j < i :: !activeSessions[j].Matches(source, destination)
      {
        if activeSessions[i].Matches(source, destination) {
          return activeSessions[i];
        }
      }
      return null;
    }

    /** A session of a new pair goes to the end of the table. */
    method AddSession(session: EtpSession)
      requires Valid() && session !in started && forall s | s in activeSessions :: !s.Matches(session.source, session.destination)
      requires session.direction == Receive ==> |activeSessions| < maxSessions
      modifies this`activeSessions, this`started
      ensures Valid() && activeSessions == old(activeSessions) + [session]
      ensures started == old(started) + if session.direction == Transmit then [session] else []
    {
      Joins(activeSessions, PairOf, Receives, session);
      CountBound(activeSessions, Receives);
      activeSessions := activeSessions + [session];
      if session.direction == Transmit {
        started := started + [session];
      }
    }

    /** `close_session`: the owner of a transmit session is told, and the session is erased. */
    method CloseSession(session: EtpSession, successful: bool)
      requires Valid() && session in activeSessions
      modifies this`activeSessions, this`completed, this`successes
      ensures Valid()
      ensures exists k :: 0 <= k < |old(activeSessions)| && old(activeSessions)[k] == session
                          && activeSessions == Erase(old(activeSessions), k)
      ensures forall s :: s in activeSessions <==> s in old(activeSessions) && s != session
      ensures completed == old(completed) + if session.direction == Transmit then [session] else []
      ensures successes == old(successes) + if session.direction == Transmit then [successful] else []
    {
      if session.direction == Transmit {
        completed := completed + [session];
        successes := successes + [successful];
      }
      var k := IndexOf(session);
      EraseFacts(activeSessions, PairOf, k);
      CountErase(activeSessions, Receives, k);
      activeSessions := Erase(activeSessions, k);
    }

    method IndexOf(session: EtpSession) returns (k: nat)
      requires session in activeSessions
      ensures k < |activeSessions| && activeSessions[k] == session
    {
      k := 0;
      while activeSessions[k] != session
        invariant 0 <= k < |activeSessions| && session in activeSessions[k..]
        decreases |activeSessions| - k
      {
        k := k + 1;
      }
    }

    /** The owner of this session, and nobody else, is told if it is a transmit session that ended. */
    twostate predicate Reports(session: EtpSession, fate: Fate)
      reads this
    {
      && completed == old(completed) + (if fate.Closed? && session.direction == Transmit then [session] else [])
      && successes == old(successes) + (if fate.Closed? && session.direction == Transmit then [fate.success] else [])
    }

    /** The effect of a handler's verdict on the table. */
    method Settle(session: EtpSession, fate: Fate)
      requires Valid() && session in activeSessions
      modifies this`activeSessions, this`completed, this`successes
      ensures Valid() && Reports(session, fate)
      ensures forall s :: s in activeSessions <==> s in old(activeSessions) && (fate.Closed? ==> s != session)
      ensures fate.Open? ==> activeSessions == old(activeSessions)
    {
      if fate.Closed? {
        CloseSession(session, fate.success);
      }
    }

    /** Nobody but the session of this pair changes, and it leaves the table or stays. */
    twostate predicate OnlyTouches(was: seq<EtpSession>, source: ControlFunction, destination: ControlFunction)
      reads this, was
    {
      && started == old(started)
      && (forall s | s in activeSessions :: s in was)
      && (forall s | s in was && !s.Matches(source, destination) ::
            s in activeSessions && s.Model() == old(s.Model()))
      && ((forall s | s in was :: !s.Matches(source, destination)) ==>
            completed == old(completed) && successes == old(successes))
    }

    /** `protocol_transmit_message`; `addressesValid` stands for both address checks. */
    method TransmitMessage(pgn: u24, message: Bytes, source: ControlFunction, destination: ControlFunction,
                           addressesValid: bool, answers: seq<bool>)
      returns (accepted: bool, sent: seq<Frame>)
      requires Valid()
      modifies this`activeSessions, this`started
      ensures Valid()
      ensures accepted <==> 1785 < |message| <= MAX_PROTOCOL_DATA_LENGTH && addressesValid
                            && forall s | s in old(activeSessions) :: !s.Matches(source, destination)
      ensures !accepted ==> activeSessions == old(activeSessions) && started == old(started) && sent == []
      ensures accepted ==>
                && |activeSessions| == |old(activeSessions)| + 1 && activeSessions[..|old(activeSessions)|] == old(activeSessions)
                && var s := activeSessions[|old(activeSessions)|];
                   && fresh(s) && s.Matches(source, destination) && started == old(started) + [s]
                   && Outcome(s.Model(), sent, Open, []) == SendRts(OpenTransmit(pgn, message), answers)
    {
      hide Valid, SendData;
      accepted, sent := false, [];
      if |message| <= 1785 || |message| > MAX_PROTOCOL_DATA_LENGTH {
        return;
      }
      var existing := GetSession(source, destination);
      if !addressesValid || existing != null {
        return;
      }
      var session := new EtpSession.Transmit(pgn, message, source, destination);
      var fate;
      AddSession(session);
      sent, fate := session.UpdateStateMachine(config, answers, false);
      accepted := true;
    }

    /** A running session of the pair is closed, after an abort if it carries another group. */
    method DropOldSession(source: ControlFunction, destination: ControlFunction, pgn: u24, answers: seq<bool>)
      returns (sent: seq<Frame>, rest: seq<bool>)
      requires Valid()
      modifies this`activeSessions, this`completed, this`successes
      ensures Valid() && started == old(started) && |activeSessions| <= |old(activeSessions)|
      ensures forall t :: t in activeSessions <==> t in old(activeSessions) && !t.Matches(source, destination)
      ensures forall t | t in old(activeSessions) && t.Matches(source, destination) ::
                Replaced(sent, rest) == AbortOld(t, pgn, answers) && Reports(t, Closed(false))
      ensures (forall t | t in old(activeSessions) :: !t.Matches(source, destination)) ==>
                sent == [] && rest == answers && completed == old(completed) && successes == old(successes)
    {
      sent, rest := [], answers;
      var oldSession := GetSession(source, destination);
      if oldSession != null {
        if oldSession.pgn != pgn {
          sent := Offer(Abort(ALREADY_IN_CM_SESSION, oldSession.pgn), answers);
          rest := if |answers| > 0 then answers[1..] else answers;
        }
        OnlyOneMatches(activeSessions, oldSession);
        CloseSession(oldSession, false);
      }
    }

    /** A receive session with its first clear-to-send, behind the frames about a replaced session. */
    predicate Accepted(s: EtpSession, sent: seq<Frame>, pgn: u24, size: u32, r: Replaced)
      reads s
    {
      var o := SendCts(OpenReceive(pgn, size, config), r.rest);
      s.Model() == o.session && sent == r.sent + o.sent
    }

    /** `process_request_to_send` */
    method ProcessRequestToSend(source: ControlFunction, destination: ControlFunction, pgn: u24, size: u32, answers: seq<bool>)
      returns (sent: seq<Frame>)
      requires Valid()
      modifies this`activeSessions, this`completed, this`successes, this`started
      ensures Valid() && started == old(started)
      ensures |old(activeSessions)| >= maxSessions ==>
                activeSessions == old(activeSessions) && completed == old(completed) && successes == old(successes)
                && sent == Offer(Abort(ALREADY_IN_CM_SESSION, pgn), answers)
      ensures |old(activeSessions)| < maxSessions ==>
                && activeSessions != []
                && var s := activeSessions[|activeSessions| - 1];
                   && fresh(s) && s.Matches(source, destination)
                   && (forall t :: t in activeSessions <==> t == s || (t in old(activeSessions) && !t.Matches(source, destination)))
                   && (forall t | t in old(activeSessions) && t.Matches(source, destination) ::
                         Accepted(s, sent, pgn, size, AbortOld(t, pgn, answers)) && Reports(t, Closed(false)))
                   && ((forall t | t in old(activeSessions) :: !t.Matches(source, destination)) ==>
                         Accepted(s, sent, pgn, size, Replaced([], answers))
                         && completed == old(completed) && successes == old(successes))
    {
      hide Valid, SendCts, Offer, AbortOld;
      if |activeSessions| >= maxSessions {
        sent := Offer(Abort(ALREADY_IN_CM_SESSION, pgn), answers);
      } else {
        var rest;
        sent, rest := DropOldSession(source, destination, pgn, answers);
        var session := new EtpSession.Receive(pgn, size, config, source, destination);
        AddSession(session);
        var cts := session.SendClearToSendFrame(rest);
        ghost var r := Replaced(sent, rest);
        sent := sent + cts;
        assert Accepted(session, sent, pgn, size, r);
      }
    }

    /** `process_clear_to_send`: the receiver answers, so the session runs the other way. */
    method ProcessClearToSend(source: ControlFunction, destination: ControlFunction, pgn: u24, packets: u8, next: u24, answers: seq<bool>)
      returns (sent: seq<Frame>)
      requires Valid()
      modifies this`activeSessions, this`completed, this`successes, activeSessions
      ensures Valid() && OnlyTouches(old(activeSessions), destination, source)
      ensures (forall s | s in old(activeSessions) :: !s.Matches(destination, source)) ==> sent == []
      ensures forall s | s in old(activeSessions) && s.Matches(destination, source) ::
                var o := OnCts(old(s.Model()), pgn, packets, next, answers);
                sent == o.sent && s.Model() == o.session && (s in activeSessions <==> o.fate.Open?)
                && Reports(s, o.fate)
    {
      sent := [];
      var session := GetSession(destination, source);
      if session != null {
        OnlyOneMatches(activeSessions, session);
        var fate;
        sent, fate := session.ProcessClearToSend(pgn, packets, next, answers);
        Settle(session, fate);
      }
    }

    /** `process_data_packet_offset` */
    method ProcessDataPacketOffset(source: ControlFunction, destination: ControlFunction, pgn: u24, packets: u8, packetOffset: u24,
                                   answers: seq<bool>)
      returns (sent: seq<Frame>)
      requires Valid()
      modifies this`activeSessions, this`completed, this`successes, activeSessions
      ensures Valid() && OnlyTouches(old(activeSessions), source, destination)
      ensures (forall s | s in old(activeSessions) :: !s.Matches(source, destination)) ==> sent == []
      ensures forall s | s in old(activeSessions) && s.Matches(source, destination) ::
                var o := OnDpo(old(s.Model()), pgn, packets, packetOffset, answers);
                sent == o.sent && s.Model() == o.session && (s in activeSessions <==> o.fate.Open?)
                && Reports(s, o.fate)
    {
      sent := [];
      var session := GetSession(source, destination);
      if session != null {
        OnlyOneMatches(activeSessions, session);
        var fate;
        sent, fate := session.ProcessDataPacketOffset(pgn, packets, packetOffset, answers);
        Settle(session, fate);
      }
    }

    /** `process_end_of_session_acknowledgement` */
    method ProcessEndOfSessionAcknowledgement(source: ControlFunction, destination: ControlFunction, size: u32)
      requires Valid()
      modifies this`activeSessions, this`completed, this`successes, activeSessions
      ensures Valid() && OnlyTouches(old(activeSessions), destination, source)
      ensures forall s | s in old(activeSessions) && s.Matches(destination, source) ::
                var o := OnEoma(old(s.Model()), size);
                s.Model() == o.session && (s in activeSessions <==> o.fate.Open?) && Reports(s, o.fate)
    {
      var session := GetSession(destination, source);
      if session != null {
        OnlyOneMatches(activeSessions, session);
        var fate := session.ProcessEndOfSessionAcknowledgement(size);
        Settle(session, fate);
      }
    }

    /** `process_data_transfer_message` */
    method ProcessDataTransfer(source: ControlFunction, destination: ControlFunction, sequence: u8, payload: seq<u8>, answers: seq<bool>)
      returns (sent: seq<Frame>, delivered: seq<Bytes>)
      requires Valid() && |payload| == 7
      modifies this`activeSessions, this`completed, this`successes, activeSessions
      ensures Valid() && OnlyTouches(old(activeSessions), source, destination)
      ensures (forall s | s in old(activeSessions) :: !s.Matches(source, destination)) ==> sent == [] && delivered == []
      ensures forall s | s in old(activeSessions) && s.Matches(source, destination) ::
                var o := OnData(old(s.Model()), sequence, payload, answers);
                sent == o.sent && delivered == o.delivered && s.Model() == o.session && (s in activeSessions <==> o.fate.Open?)
                && Reports(s, o.fate)
    {
      sent, delivered := [], [];
      var session := GetSession(source, destination);
      if session != null {
        OnlyOneMatches(activeSessions, session);
        var fate;
        sent, fate, delivered := session.ProcessDataTransfer(sequence, payload, answers);
        Settle(session, fate);
      }
    }

    /** The session of this pair is closed if it carries this parameter group. */
    method CloseIfCarries(source: ControlFunction, destination: ControlFunction, pgn: u24)
      requires Valid()
      modifies this`activeSessions, this`completed, this`successes
      ensures Valid() && started == old(started) && OnlyFailures()
      ensures forall s :: s in activeSessions <==> s in old(activeSessions) && !(s.pgn == pgn && s.Matches(source, destination))
    {
      var session := GetSession(source, destination);
      if session != null {
        OnlyOneMatches(activeSessions, session);
        if session.pgn == pgn {
          CloseSession(session, false);
        }
      }
    }

    twostate predicate OnlyFailures()
      reads this
    {
      && old(completed) <= completed && old(successes) <= successes
      && forall k | |old(successes)| <= k < |successes| :: !successes[k]
    }

    /** `process_abort` closes the session of either direction that carries this parameter group. */
    method ProcessAbort(source: ControlFunction, destination: ControlFunction, pgn: u24)
      requires Valid()
      modifies this`activeSessions, this`completed, this`successes
      ensures Valid() && started == old(started) && OnlyFailures()
      ensures forall s :: s in activeSessions <==>
                s in old(activeSessions)
                && !(s.pgn == pgn && (s.Matches(source, destination) || s.Matches(destination, source)))
    {
      hide Valid;
      CloseIfCarries(source, destination, pgn);
      CloseIfCarries(destination, source, pgn);
    }

    lemma OneEach()
      requires Valid()
      ensures Distinct(activeSessions)
    {
    }

    /** One session during an update: it is closed if an address became invalid. */
    method UpdateOne(session: EtpSession, c: Choice) returns (sent: seq<Frame>, ghost fate: Fate)
      requires Valid() && session in activeSessions
      modifies this`activeSessions, this`completed, this`successes, session
      ensures Valid() && started == old(started)
      ensures Outcome(session.Model(), sent, fate, []) == Decide(old(session.Model()), config, c)
      ensures if fate.Open? then activeSessions == old(activeSessions)
              else exists k :: 0 <= k < |old(activeSessions)| && old(activeSessions)[k] == session
                               && activeSessions == Erase(old(activeSessions), k)
      ensures completed == old(completed) + if fate.Closed? && session.direction == Transmit then [session] else []
      ensures successes == old(successes) + if fate.Closed? && session.direction == Transmit then [fate.success] else []
    {
      if !c.sourceValid || !c.destinationValid {
        sent, fate := [], Closed(false);
        CloseSession(session, false);
      } else {
        var verdict;
        sent, verdict := session.UpdateStateMachine(config, c.answers, c.expired);
        fate := verdict;
        if verdict.Closed? {
          CloseSession(session, verdict.success);
        }
      }
    }

    /** The session before the ones that have been dealt with. */
    method UpdateLast(ghost was: seq<EtpSession>, i: nat, choice: Choice, ghost tail: seq<EtpSession>) returns (sent: seq<Frame>)
      requires Valid() && i < |was| && Distinct(was) && Halfway(activeSessions, was, i + 1, tail)
      modifies this`activeSessions, this`completed, this`successes, was[i]
      ensures Valid() && started == old(started)
      ensures forall k | 0 <= k < |was| && k != i :: was[k].Model() == old(was[k].Model())
      ensures was[i].Model() == After(old(was[i].Model()), config, choice)
      ensures var v := VerdictOf(old(was[i].Model()), config, choice);
              && Halfway(activeSessions, was, i, Stays(was[i], v) + tail) && sent == v.sent
              && completed == old(completed) + (if v.report.Told? then [was[i]] else [])
              && successes == old(successes) + (if v.report.Told? then [v.report.success] else [])
    {
      hide Valid, Decide, EtpSession.Model, Distinct;
      OneEach();
      Others(was, i);
      ghost var before := activeSessions;
      AtHand(before, was, i, tail);
      DirectionOf(was[i]);
      ghost var fate;
      sent, fate := UpdateOne(activeSessions[i], choice);
      AfterOne(before, was, i, tail, activeSessions, fate);
    }

    /** `update`: the table is walked from its end, so that erasing the session at hand does
        not disturb the ones still to come. Every session runs exactly once, those that stay
        keep their order, and the owner of each transmit session that ended is told its result. */
    method UpdateSessions(choices: seq<Choice>) returns (sent: seq<Frame>)
      requires Valid() && |choices| == |activeSessions|
      modifies this`activeSessions, this`completed, this`successes, activeSessions
      ensures Valid() && started == old(started)
      ensures forall k | 0 <= k < |choices| ::
                old(activeSessions)[k].Model() == After(old(activeSessions[k].Model()), config, choices[k])
      ensures var e := Backwards(old(activeSessions), Verdicts(old(Models(activeSessions)), config, choices), 0);
              && activeSessions == e.kept && sent == e.sent
              && completed == old(completed) + e.told && successes == old(successes) + e.results
    {
      hide Valid, Decide, EtpSession.Model, Distinct, After, Models, VerdictOf, Backwards, Halfway;
      sent := [];
      OneEach();
      ghost var was, models := activeSessions, Models(activeSessions);
      ghost var verdicts := Verdicts(models, config, choices);
      HalfwayBegins(was);
      BackwardsBegins(was, verdicts);
      for i := |activeSessions| downto 0
        invariant Valid() && started == old(started) && |was| == |choices|
        invariant forall k | 0 <= k < |was| :: was[k].Model() == if k >= i then After(models[k], config, choices[k]) else models[k]
        invariant var e := Backwards(was, verdicts, i);
                  && Halfway(activeSessions, was, i, e.kept) && sent == e.sent
                  && completed == old(completed) + e.told && successes == old(successes) + e.results
      {
        ghost var e := Backwards(was, verdicts, i + 1);
        var frames := UpdateLast(was, i, choices[i], e.kept);
        sent := sent + frames;
        BackwardsNext(was, verdicts, i);
      }
      HalfwayDone(activeSessions, was, Backwards(was, verdicts, 0).kept);
    }
  }

  lemma AtHand(all: seq<EtpSession>, was: seq<EtpSession>, i: nat, tail: seq<EtpSession>)
    requires i < |was| && all == was[..i + 1] + tail
    ensures i < |all| && all[i] == was[i] && was[i] in all
  {
    assert all[i] == was[i];
  }

  /** The table after the session at hand was left open or closed. */
  lemma AfterOne(all: seq<EtpSession>, was: seq<EtpSession>, i: nat, tail: seq<EtpSession>, after: seq<EtpSession>, fate: Fate)
    requires i < |was| && all == was[..i + 1] + tail && Distinct(all)
    requires if fate.Open? then after == all
             else exists k :: 0 <= k < |all| && all[k] == was[i] && after == Erase(all, k)
    ensures after == was[..i] + ((if fate.Open? then [was[i]] else []) + tail)
  {
    assert all == was[..i] + [was[i]] + tail;
    if fate.Closed? {
      EraseAt(all, was[..i], was[i], tail, after);
      assert [] + tail == tail;
    }
  }

  function Decide(s: Session, config: Config, c: Choice): Outcome {
    if !c.sourceValid || !c.destinationValid then Outcome(s, [], Closed(false), [])
    else Update(s, config, c.answers, c.expired)
  }

  function After(s: Session, config: Config, c: Choice): Session { Decide(s, config, c).session }

  function Models(sessions: seq<EtpSession>): (models: seq<Session>)
    reads sessions
    ensures |models| == |sessions| && forall k | 0 <= k < |models| :: models[k] == sessions[k].Model()
  {
    seq(|sessions|, k requires 0 <= k < |sessions| reads sessions => sessions[k].Model())
  }

  /** The table while an update has dealt with the sessions from `n` on. */
  predicate Halfway(table: seq<EtpSession>, was: seq<EtpSession>, n: nat, tail: seq<EtpSession>)
    requires n <= |was|
  {
    table == was[..n] + tail
  }

  lemma HalfwayBegins(was: seq<EtpSession>)
    ensures Halfway(was, was, |was|, [])
  {
    assert was[..|was|] == was;
  }

  lemma HalfwayDone(table: seq<EtpSession>, was: seq<EtpSession>, tail: seq<EtpSession>)
    requires Halfway(table, was, 0, tail)
    ensures table == tail
  {
  }

  /** A session is aborted before it is replaced exactly when it carries another parameter group;
      the abort takes the first answer. */
  lemma AbortOldIff(t: EtpSession, pgn: u24, answers: seq<bool>)
    ensures var r := AbortOld(t, pgn, answers);
            && r.sent == (if t.pgn != pgn && Accepts(answers, 0) then [Abort(ALREADY_IN_CM_SESSION, t.pgn)] else [])
            && forall i: nat :: Accepts(r.rest, i) <==> Accepts(answers, if t.pgn == pgn then i else i + 1)
  {
  }

  function VerdictOf(s: Session, config: Config, c: Choice): Verdict<Frame> {
    var o := Decide(s, config, c);
    Verdict(o.fate.Open?, o.sent, if o.fate.Closed? && s.direction == Transmit then Told(o.fate.success) else Silent)
  }

  function Verdicts(models: seq<Session>, config: Config, choices: seq<Choice>): (verdicts: seq<Verdict<Frame>>)
    requires |models| == |choices|
    ensures |verdicts| == |models| && forall k | 0 <= k < |models| :: verdicts[k] == VerdictOf(models[k], config, choices[k])
  {
    seq(|models|, k requires 0 <= k < |models| => VerdictOf(models[k], config, choices[k]))
  }

  twostate lemma DirectionOf(session: EtpSession)
    ensures old(session.Model()).direction == session.direction
  {
  }

  lemma OnlyOneMatches(sessions: seq<EtpSession>, session: EtpSession)
    requires DistinctBy(sessions, PairOf) && session in sessions
    ensures forall s | s in sessions && s.Matches(session.source, session.destination) :: s == session
  {
    OnlyOne(sessions, PairOf, session);
    assert forall s: EtpSession | s in sessions && s.Matches(session.source, session.destination) :: PairOf(s) == PairOf(session);
  }
}
