/** The table of active sessions of one transport protocol manager. It is kept like the table
    of the extended protocol, but an update walks over a copy of it from the beginning. */
module TpManagers {
  import opened Widths
  import opened TpFrames
  import opened Tp
  import opened TpSessions
  import opened SessionTable

  /** What the environment decides about one session during an update. */
  datatype Choice = Choice(answers: seq<bool>, expired: bool, early: bool, sourceValid: bool, destinationValid: bool)

  function PairOf(s: TpSession): (ControlFunction, Destination) { (s.source, s.destination) }

  predicate Receives(s: TpSession) { s.direction == Receive }

  /** What a replaced session's partner is sent, and the answers this leaves for the rest of the call. */
  datatype Replaced = Replaced(sent: seq<Frame>, rest: seq<bool>)

  function AbortOld(t: TpSession, pgn: u24, aborts: bool, answers: seq<bool>): Replaced
    reads t
  {
    if !aborts || t.pgn == pgn then Replaced([], answers)
    else Replaced(AbortSession(t.Model(), ALREADY_IN_CM_SESSION, answers).sent, if |answers| > 0 then answers[1..] else answers)
  }

  class TpManager {
    const config: Config
    const maxSessions: nat
    var activeSessions: seq<TpSession>

    /** The completion callbacks made so far: whose, and with which result. */
    var completed: seq<TpSession>
    var successes: seq<bool>

    /** Every transmit session that was ever accepted. */
    ghost var started: seq<TpSession>

    ghost predicate Valid()
      reads this
    {
      && Distinct(activeSessions) && DistinctBy(activeSessions, PairOf) && Count(activeSessions, Receives) <= maxSessions
      && Distinct(started) && Distinct(completed) && |completed| == |successes|
      && (forall s | s in completed :: s in started && s !in activeSessions)
      && (forall s | s in activeSessions && s.direction == Transmit :: s in started)
      && (forall s | s in started :: s in activeSessions || s in completed)
      && (forall s | s in started :: s.direction == Transmit)
    }

    constructor (config: Config, maxSessions: nat)
      ensures Valid() && activeSessions == [] && started == []
    {
      this.config, this.maxSessions := config, maxSessions;
      activeSessions, completed, successes, started := [], [], [], [];
    }

    method GetSession(source: ControlFunction, destination: Destination) returns (session: TpSession?)
      ensures session == null <==> forall s | s in activeSessions :: !s.Matches(source, destination)
      ensures session != null ==> session in activeSessions && session.Matches(source, destination)
    {
      for i := 0 to |activeSessions|
        invariant forall j | 0 <= j < i :: !activeSessions[j].Matches(source, destination)
      {
        if activeSessions[i].Matches(source, destination) {
          return activeSessions[i];
        }
      }
      return null;
    }

    /** A session of a new pair goes to the end of the table. */
    method AddSession(session: TpSession)
      requires Valid() && session !in started && forall s | s in activeSessions :: !s.Matches(session.source, session.destination)
      requires session.direction == Receive ==> |activeSessions| < maxSessions
      modifies this`activeSessions, this`started
      ensures Valid() && activeSessions == old(activeSessions) + [session]
      ensures started == old(started) + if session.direction == Transmit then [session] else []
    {
      Joins(activeSessions, PairOf, Receives, session);
      CountBound(activeSessions, Receives);
      activeSessions := activeSessions + [session];
      if session.direction == Transmit {
        started := started + [session];
      }
    }

    /** `close_session`: the owner of a transmit session is told, and the session is erased. */
    method CloseSession(session: TpSession, successful: bool)
      requires Valid() && session in activeSessions
      modifies this`activeSessions, this`completed, this`successes
      ensures Valid()
      ensures exists k :: 0 <= k < |old(activeSessions)| && old(activeSessions)[k] == session
                          && activeSessions == Erase(old(activeSessions), k)
      ensures forall s :: s in activeSessions <==> s in old(activeSessions) && s != session
      ensures completed == old(completed) + if session.direction == Transmit then [session] else []
      ensures successes == old(successes) + if session.direction == Transmit then [successful] else []
    {
      if session.direction == Transmit {
        completed := completed + [session];
        successes := successes + [successful];
      }
      var k := IndexOf(session);
      EraseFacts(activeSessions, PairOf, k);
      CountErase(activeSessions, Receives, k);
      activeSessions := Erase(activeSessions, k);
    }

    method IndexOf(session: TpSession) returns (k: nat)
      requires session in activeSessions
      ensures k < |activeSessions| && activeSessions[k] == session
    {
      k := 0;
      while activeSessions[k] != session
        invariant 0 <= k < |activeSessions| && session in activeSessions[k..]
        decreases |activeSessions| - k
      {
        k := k + 1;
      }
    }

    /** The owner of this session, and nobody else, is told if it is a transmit session that ended. */
    twostate predicate Reports(session: TpSession, fate: Fate)
      reads this
    {
      && completed == old(completed) + (if fate.Closed? && session.direction == Transmit then [session] else [])
      && successes == old(successes) + (if fate.Closed? && session.direction == Transmit then [fate.success] else [])
    }

    /** The effect of a handler's verdict on the table. */
    method Settle(session: TpSession, fate: Fate)
      requires Valid() && session in activeSessions
      modifies this`activeSessions, this`completed, this`successes
      ensures Valid() && Reports(session, fate)
      ensures forall s :: s in activeSessions <==> s in old(activeSessions) && (fate.Closed? ==> s != session)
      ensures fate.Open? ==> activeSessions == old(activeSessions)
    {
      if fate.Closed? {
        CloseSession(session, fate.success);
      }
    }

    /** Nobody but the session of this pair changes, and it leaves the table or stays. */
    twostate predicate OnlyTouches(was: seq<TpSession>, source: ControlFunction, destination: Destination)
      reads this, was
    {
      && started == old(started)
      && (forall s | s in activeSessions :: s in was)
      && (forall s | s in was && !s.Matches(source, destination) ::
            s in activeSessions && s.Model() == old(s.Model()))
      && ((forall s | s in was :: !s.Matches(source, destination)) ==>
            completed == old(completed) && successes == old(successes))
    }

    /** `protocol_transmit_message`; `sourceValid` stands for the check of the own address. */
    method TransmitMessage(pgn: u24, message: seq<u8>, source: ControlFunction, destination: Destination,
                           sourceValid: bool, answers: seq<bool>)
      returns (accepted: bool, sent: seq<Frame>)
      requires Valid()
      modifies this`activeSessions, this`started
      ensures Valid()
      ensures accepted <==> 8 < |message| <= MAX_PROTOCOL_DATA_LENGTH && sourceValid
                            && forall s | s in old(activeSessions) :: !s.Matches(source, destination)
      ensures !accepted ==> activeSessions == old(activeSessions) && started == old(started) && sent == []
      ensures accepted ==>
                && |activeSessions| == |old(activeSessions)| + 1 && activeSessions[..|old(activeSessions)|] == old(activeSessions)
                && var s := activeSessions[|old(activeSessions)|];
                   && fresh(s) && s.Matches(source, destination) && started == old(started) + [s]
                   && Outcome(s.Model(), sent, Open, [])
                      == Update(OpenTransmit(pgn, message, destination.Everybody?, config), config, answers, false, false)
    {
      hide Valid, PacketCount8, Update, SendData;
      accepted, sent := false, [];
      if |message| <= 8 || |message| > MAX_PROTOCOL_DATA_LENGTH {
        return;
      }
      var existing := GetSession(source, destination);
      if !sourceValid || existing != null {
        return;
      }
      var session := new TpSession.Transmit(pgn, message, source, destination, config);
      var fate;
      AddSession(session);
      OpeningStays(pgn, message, destination.Everybody?, config, answers);
      sent, fate := session.UpdateStateMachine(config, answers, false, false);
      accepted := true;
    }

    /** A running session of the pair is closed; a request carrying another group aborts it first. */
    method DropOldSession(source: ControlFunction, destination: Destination, pgn: u24, aborts: bool, answers: seq<bool>)
      returns (sent: seq<Frame>, rest: seq<bool>)
      requires Valid()
      modifies this`activeSessions, this`completed, this`successes
      ensures Valid() && started == old(started) && |activeSessions| <= |old(activeSessions)|
      ensures forall t :: t in activeSessions <==> t in old(activeSessions) && !t.Matches(source, destination)
      ensures forall t | t in old(activeSessions) && t.Matches(source, destination) ::
                Replaced(sent, rest) == AbortOld(t, pgn, aborts, answers) && Reports(t, Closed(false))
      ensures (forall t | t in old(activeSessions) :: !t.Matches(source, destination)) ==>
                sent == [] && rest == answers && completed == old(completed) && successes == old(successes)
    {
      sent, rest := [], answers;
      var oldSession := GetSession(source, destination);
      if oldSession != null {
        if aborts && oldSession.pgn != pgn {
          sent := AbortSession(oldSession.Model(), ALREADY_IN_CM_SESSION, answers).sent;
          rest := if |answers| > 0 then answers[1..] else answers;
        }
        OnlyOneMatches(activeSessions, oldSession);
        CloseSession(oldSession, false);
      }
    }

    /** A new receive session of the pair takes its place at the end of the table. */
    twostate predicate Joined(was: seq<TpSession>, source: ControlFunction, destination: Destination)
      reads this
    {
      && activeSessions != []
      && var s := activeSessions[|activeSessions| - 1];
         && s !in was && s.Matches(source, destination)
         && (forall t | t in activeSessions :: t == s || (t in was && !t.Matches(source, destination)))
         && (forall t | t in was && !t.Matches(source, destination) :: t in activeSessions)
    }

    /** `process_broadcast_announce_message`: nothing is answered. */
    method ProcessBroadcastAnnounce(source: ControlFunction, pgn: u24, size: u16, packets: u8)
      requires Valid()
      modifies this`activeSessions, this`completed, this`successes, this`started
      ensures Valid() && started == old(started)
      ensures |old(activeSessions)| >= maxSessions || size > MAX_PROTOCOL_DATA_LENGTH ==>
                activeSessions == old(activeSessions) && completed == old(completed) && successes == old(successes)
      ensures |old(activeSessions)| < maxSessions && size <= MAX_PROTOCOL_DATA_LENGTH ==>
                && (if PacketCount8(size) == packets then
                      && Joined(old(activeSessions), source, Everybody) && fresh(activeSessions[|activeSessions| - 1])
                      && activeSessions[|activeSessions| - 1].Model() == OpenReceive(pgn, size, true, 0xFF)
                    else forall t :: t in activeSessions <==> t in old(activeSessions) && !t.Matches(source, Everybody))
                && (forall t | t in old(activeSessions) && t.Matches(source, Everybody) :: Reports(t, Closed(false)))
                && ((forall t | t in old(activeSessions) :: !t.Matches(source, Everybody)) ==>
                      completed == old(completed) && successes == old(successes))
    {
      hide Valid, PacketCount8, AbortOld;
      if |activeSessions| < maxSessions && size <= MAX_PROTOCOL_DATA_LENGTH {
        var sent, rest := DropOldSession(source, Everybody, pgn, false, []);
        var session := new TpSession.Receive(pgn, size, source, Everybody, 0xFF);
        if session.Model().TotalPackets() == packets {
          AddSession(session);
        }
      }
    }

    /** What a request for these packets sends, behind the frames about a replaced session. */
    function Answered(pgn: u24, size: u16, packets: u8, max: u8, r: Replaced): Outcome {
      var s := OpenReceive(pgn, size, false, Min(max, config.packetsPerCts));
      if PacketCount8(size) == packets then FirstCts(s, r.rest)
      else Outcome(s, Offer(Abort(ANY_OTHER_ERROR, pgn), r.rest), Closed(false), [])
    }

    /** `process_request_to_send` */
    method ProcessRequestToSend(source: ControlFunction, destination: ControlFunction, pgn: u24, size: u16, packets: u8, max: u8,
                                answers: seq<bool>)
      returns (sent: seq<Frame>)
      requires Valid()
      modifies this`activeSessions, this`completed, this`successes, this`started
      ensures Valid() && started == old(started)
      ensures |old(activeSessions)| >= maxSessions ==>
                activeSessions == old(activeSessions) && completed == old(completed) && successes == old(successes)
                && sent == Offer(Abort(ALREADY_IN_CM_SESSION, pgn), answers)
      ensures |old(activeSessions)| < maxSessions ==>
                exists r: Replaced ::
                  && sent == r.sent + Answered(pgn, size, packets, max, r).sent
                  && (if PacketCount8(size) == packets then
                        && Joined(old(activeSessions), source, Only(destination)) && fresh(activeSessions[|activeSessions| - 1])
                        && activeSessions[|activeSessions| - 1].Model() == Answered(pgn, size, packets, max, r).session
                      else forall t :: t in activeSessions <==> t in old(activeSessions) && !t.Matches(source, Only(destination)))
                  && (forall t | t in old(activeSessions) && t.Matches(source, Only(destination)) ::
                        r == old(AbortOld(t, pgn, true, answers)) && Reports(t, Closed(false)))
                  && ((forall t | t in old(activeSessions) :: !t.Matches(source, Only(destination))) ==>
                        r == Replaced([], answers) && completed == old(completed) && successes == old(successes))
    {
      hide Valid, PacketCount8, Update, FirstCts, Offer, AbortOld;
      if |activeSessions| >= maxSessions {
        sent := Offer(Abort(ALREADY_IN_CM_SESSION, pgn), answers);
      } else {
        var rest;
        sent, rest := DropOldSession(source, Only(destination), pgn, true, answers);
        ghost var r := Replaced(sent, rest);
        var session := new TpSession.Receive(pgn, size, source, Only(destination), Min(max, config.packetsPerCts));
        if session.Model().TotalPackets() != packets {
          sent := sent + AbortSession(session.Model(), ANY_OTHER_ERROR, rest).sent;
        } else {
          AddSession(session);
          ReceiveOpens(pgn, size, Min(max, config.packetsPerCts), config, rest);
          var frames, fate := session.UpdateStateMachine(config, rest, false, false);
          sent := sent + frames;
        }
        assert sent == r.sent + Answered(pgn, size, packets, max, r).sent;
      }
    }

    /** `process_clear_to_send`: the receiver answers, so the session runs the other way. */
    method ProcessClearToSend(source: ControlFunction, destination: ControlFunction, pgn: u24, packets: u8, next: u8, answers: seq<bool>)
      returns (sent: seq<Frame>)
      requires Valid()
      modifies this`activeSessions, this`completed, this`successes, activeSessions
      ensures Valid() && OnlyTouches(old(activeSessions), destination, Only(source))
      ensures (forall s | s in old(activeSessions) :: !s.Matches(destination, Only(source))) ==> sent == []
      ensures forall s | s in old(activeSessions) && s.Matches(destination, Only(source)) ::
                var o := OnCts(old(s.Model()), pgn, packets, next, answers);
                sent == o.sent && s.Model() == o.session && (s in activeSessions <==> o.fate.Open?)
                && Reports(s, o.fate)
    {
      sent := [];
      var session := GetSession(destination, Only(source));
      if session != null {
        OnlyOneMatches(activeSessions, session);
        var fate;
        sent, fate := session.ProcessClearToSend(pgn, packets, next, answers);
        Settle(session, fate);
      }
    }

    /** `process_end_of_session_acknowledgement` */
    method ProcessEndOfSessionAcknowledgement(source: ControlFunction, destination: ControlFunction)
      requires Valid()
      modifies this`activeSessions, this`completed, this`successes, activeSessions
      ensures Valid() && OnlyTouches(old(activeSessions), destination, Only(source))
      ensures forall s | s in old(activeSessions) && s.Matches(destination, Only(source)) ::
                var o := OnEoma(old(s.Model()));
                s.Model() == o.session && (s in activeSessions <==> o.fate.Open?) && Reports(s, o.fate)
    {
      var session := GetSession(destination, Only(source));
      if session != null {
        OnlyOneMatches(activeSessions, session);
        var fate := session.ProcessEndOfSessionAcknowledgement();
        Settle(session, fate);
      }
    }

    /** `process_data_transfer_message` */
    method ProcessDataTransfer(source: ControlFunction, destination: Destination, sequence: u8, payload: seq<u8>, answers: seq<bool>)
      returns (sent: seq<Frame>, delivered: seq<Bytes>)
      requires Valid() && |payload| == 7
      modifies this`activeSessions, this`completed, this`successes, activeSessions
      ensures Valid() && OnlyTouches(old(activeSessions), source, destination)
      ensures (forall s | s in old(activeSessions) :: !s.Matches(source, destination)) ==> sent == [] && delivered == []
      ensures forall s | s in old(activeSessions) && s.Matches(source, destination) ::
                var o := OnData(old(s.Model()), sequence, payload, answers);
                sent == o.sent && delivered == o.delivered && s.Model() == o.session && (s in activeSessions <==> o.fate.Open?)
                && Reports(s, o.fate)
    {
      sent, delivered := [], [];
      var session := GetSession(source, destination);
      if session != null {
        OnlyOneMatches(activeSessions, session);
        var fate;
        sent, fate, delivered := session.ProcessDataTransfer(sequence, payload, answers);
        Settle(session, fate);
      }
    }

    /** The session of this pair is closed if it carries this parameter group. */
    method CloseIfCarries(source: ControlFunction, destination: Destination, pgn: u24)
      requires Valid()
      modifies this`activeSessions, this`completed, this`successes
      ensures Valid() && started == old(started) && OnlyFailures()
      ensures forall s :: s in activeSessions <==> s in old(activeSessions) && !(s.pgn == pgn && s.Matches(source, destination))
    {
      var session := GetSession(source, destination);
      if session != null {
        OnlyOneMatches(activeSessions, session);
        if session.pgn == pgn {
          CloseSession(session, false);
        }
      }
    }

    twostate predicate OnlyFailures()
      reads this
    {
      && old(completed) <= completed && old(successes) <= successes
      && forall k | |old(successes)| <= k < |successes| :: !successes[k]
    }

    /** `process_abort` closes the session of either direction that carries this parameter group. */
    method ProcessAbort(source: ControlFunction, destination: ControlFunction, pgn: u24)
      requires Valid()
      modifies this`activeSessions, this`completed, this`successes
      ensures Valid() && started == old(started) && OnlyFailures()
      ensures forall s :: s in activeSessions <==>
                s in old(activeSessions)
                && !(s.pgn == pgn && (s.Matches(source, Only(destination)) || s.Matches(destination, Only(source))))
    {
      hide Valid;
      CloseIfCarries(source, Only(destination), pgn);
      CloseIfCarries(destination, Only(source), pgn);
    }

    lemma OneEach()
      requires Valid()
      ensures Distinct(activeSessions)
    {
    }

    /** One session during an update: it is closed if an address became invalid. */
    method UpdateOne(session: TpSession, c: Choice) returns (sent: seq<Frame>, ghost fate: Fate)
      requires Valid() && session in activeSessions
      modifies this`activeSessions, this`completed, this`successes, session
      ensures Valid() && started == old(started)
      ensures Outcome(session.Model(), sent, fate, []) == Decide(old(session.Model()), config, c)
      ensures if fate.Open? then activeSessions == old(activeSessions)
              else exists k :: 0 <= k < |old(activeSessions)| && old(activeSessions)[k] == session
                               && activeSessions == Erase(old(activeSessions), k)
      ensures completed == old(completed) + if fate.Closed? && session.direction == Transmit then [session] else []
      ensures successes == old(successes) + if fate.Closed? && session.direction == Transmit then [fate.success] else []
    {
      if !c.sourceValid || (!session.destination.Everybody? && !c.destinationValid) {
        sent, fate := [], Closed(false);
        CloseSession(session, false);
      } else {
        var verdict;
        sent, verdict := session.UpdateStateMachine(config, c.answers, c.expired, c.early);
        fate := verdict;
        if verdict.Closed? {
          CloseSession(session, verdict.success);
        }
      }
    }

    /** The next session of the copy; the table holds what was left open and what is to come. */
    method UpdateNext(copy: seq<TpSession>, i: nat, choice: Choice, ghost front: seq<TpSession>) returns (sent: seq<Frame>)
      requires Valid() && i < |copy| && Distinct(copy) && Halfway(activeSessions, front, copy, i)
      modifies this`activeSessions, this`completed, this`successes, copy[i]
      ensures Valid() && started == old(started)
      ensures forall k | 0 <= k < |copy| && k != i :: copy[k].Model() == old(copy[k].Model())
      ensures copy[i].Model() == After(old(copy[i].Model()), config, choice)
      ensures var v := VerdictOf(old(copy[i].Model()), config, choice);
              && Halfway(activeSessions, front + Stays(copy[i], v), copy, i + 1) && sent == v.sent
              && completed == old(completed) + (if v.report.Told? then [copy[i]] else [])
              && successes == old(successes) + (if v.report.Told? then [v.report.success] else [])
    {
      hide Valid, Decide, TpSession.Model, Distinct;
      OneEach();
      Others(copy, i);
      ghost var before := activeSessions;
      Head(before, front, copy, i);
      DirectionOf(copy[i]);
      ghost var fate;
      sent, fate := UpdateOne(copy[i], choice);
      AfterOne(before, front, copy, i, activeSessions, fate);
    }

    /** `update` walks over a copy of the table, so that erasing the session at hand does not
        disturb the walk. Every session runs exactly once, those that stay keep their order,
        and the owner of each transmit session that ended is told its result. */
    method UpdateSessions(choices: seq<Choice>) returns (sent: seq<Frame>)
      requires Valid() && |choices| == |activeSessions|
      modifies this`activeSessions, this`completed, this`successes, activeSessions
      ensures Valid() && started == old(started)
      ensures forall k | 0 <= k < |choices| ::
                old(activeSessions)[k].Model() == After(old(activeSessions[k].Model()), config, choices[k])
      ensures var e := Forwards(old(activeSessions), Verdicts(old(Models(activeSessions)), config, choices), |choices|);
              && activeSessions == e.kept && sent == e.sent
              && completed == old(completed) + e.told && successes == old(successes) + e.results
    {
      hide Valid, Decide, TpSession.Model, Distinct, After, Models, VerdictOf, Forwards, Halfway;
      ForwardsBegins(activeSessions, Verdicts(Models(activeSessions), config, choices));
      sent := [];
      OneEach();
      var copy := activeSessions;
      ghost var models := Models(activeSessions);
      ghost var verdicts := Verdicts(models, config, choices);
      HalfwayBegins(copy);
      for i := 0 to |copy|
        invariant Valid() && started == old(started) && |copy| == |choices|
        invariant forall k | 0 <= k < |copy| :: copy[k].Model() == if k < i then After(models[k], config, choices[k]) else models[k]
        invariant var e := Forwards(copy, verdicts, i);
                  && Halfway(activeSessions, e.kept, copy, i) && sent == e.sent
                  && completed == old(completed) + e.told && successes == old(successes) + e.results
      {
        ghost var e := Forwards(copy, verdicts, i);
        var frames := UpdateNext(copy, i, choices[i], e.kept);
        sent := sent + frames;
        ForwardsNext(copy, verdicts, i);
      }
      HalfwayDone(activeSessions, Forwards(copy, verdicts, |copy|).kept, copy);
    }
  }

  /** The first step of a new session neither closes it nor delivers anything. */
  lemma OpeningStays(pgn: u24, message: Bytes, broadcast: bool, config: Config, answers: seq<bool>)
    ensures var o := Update(OpenTransmit(pgn, message, broadcast, config), config, answers, false, false);
            o.fate.Open? && o.delivered == []
  {
  }

  lemma ReceiveOpens(pgn: u24, size: u16, max: u8, config: Config, answers: seq<bool>)
    ensures Update(OpenReceive(pgn, size, false, max), config, answers, false, false)
            == FirstCts(OpenReceive(pgn, size, false, max), answers)
  {
  }

  lemma Head(all: seq<TpSession>, front: seq<TpSession>, copy: seq<TpSession>, i: nat)
    requires i < |copy| && all == front + copy[i..]
    ensures copy[i] in all
  {
    assert all[|front|] == copy[i];
  }

  /** The table after the session at hand was left open or closed. */
  lemma AfterOne(all: seq<TpSession>, front: seq<TpSession>, copy: seq<TpSession>, i: nat, after: seq<TpSession>, fate: Fate)
    requires i < |copy| && all == front + copy[i..] && Distinct(all)
    requires if fate.Open? then after == all
             else exists k :: 0 <= k < |all| && all[k] == copy[i] && after == Erase(all, k)
    ensures after == front + (if fate.Open? then [copy[i]] else []) + copy[i + 1..]
  {
    assert all == front + [copy[i]] + copy[i + 1..];
    if fate.Closed? {
      EraseAt(all, front, copy[i], copy[i + 1..], after);
      assert front + [] == front;
    }
  }

  function Decide(s: Session, config: Config, c: Choice): Outcome {
    if !c.sourceValid || (!s.broadcast && !c.destinationValid) then Outcome(s, [], Closed(false), [])
    else Update(s, config, c.answers, c.expired, c.early)
  }

  function After(s: Session, config: Config, c: Choice): Session { Decide(s, config, c).session }

  function Models(sessions: seq<TpSession>): (models: seq<Session>)
    reads sessions
    ensures |models| == |sessions| && forall k | 0 <= k < |models| :: models[k] == sessions[k].Model()
  {
    seq(|sessions|, k requires 0 <= k < |sessions| reads sessions => sessions[k].Model())
  }

  /** The table while an update has dealt with the first `n` sessions of its copy. */
  predicate Halfway(table: seq<TpSession>, front: seq<TpSession>, copy: seq<TpSession>, n: nat)
    requires n <= |copy|
  {
    table == front + copy[n..]
  }

  lemma HalfwayBegins(copy: seq<TpSession>)
    ensures Halfway(copy, [], copy, 0)
  {
  }

  lemma HalfwayDone(table: seq<TpSession>, front: seq<TpSession>, copy: seq<TpSession>)
    requires Halfway(table, front, copy, |copy|)
    ensures table == front
  {
    assert copy[|copy|..] == [];
  }

  /** A session is aborted before it is replaced exactly when it carries another parameter group;
      the abort takes the first answer. */
  lemma AbortOldIff(t: TpSession, pgn: u24, answers: seq<bool>)
    ensures var r := AbortOld(t, pgn, true, answers);
            && r.sent == (if t.pgn != pgn && !t.destination.Everybody? && Accepts(answers, 0) then [Abort(ALREADY_IN_CM_SESSION, t.pgn)] else [])
            && forall i: nat :: Accepts(r.rest, i) <==> Accepts(answers, if t.pgn == pgn then i else i + 1)
  {
  }

  function VerdictOf(s: Session, config: Config, c: Choice): Verdict<Frame> {
    var o := Decide(s, config, c);
    Verdict(o.fate.Open?, o.sent, if o.fate.Closed? && s.direction == Transmit then Told(o.fate.success) else Silent)
  }

  function Verdicts(models: seq<Session>, config: Config, choices: seq<Choice>): (verdicts: seq<Verdict<Frame>>)
    requires |models| == |choices|
    ensures |verdicts| == |models| && forall k | 0 <= k < |models| :: verdicts[k] == VerdictOf(models[k], config, choices[k])
  {
    seq(|models|, k requires 0 <= k < |models| => VerdictOf(models[k], config, choices[k]))
  }

  twostate lemma DirectionOf(session: TpSession)
    ensures old(session.Model()).direction == session.direction
  {
  }

  lemma OnlyOneMatches(sessions: seq<TpSession>, session: TpSession)
    requires DistinctBy(sessions, PairOf) && session in sessions
    ensures forall s | s in sessions && s.Matches(session.source, session.destination) :: s == session
  {
    OnlyOne(sessions, PairOf, session);
    assert forall s: TpSession | s in sessions && s.Matches(session.source, session.destination) :: PairOf(s) == PairOf(session);
  }
}
