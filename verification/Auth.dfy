/**
 The session table and the table of failed logins. Times are steady-clock ticks. Where the original
 reads the clock before it takes the mutex, the reading is a parameter of its own, which others may
 overtake. A background sweep removes old entries; it is proved exactly when nobody can tell.
 */
module Auth {
  import opened Wrappers

  const SECOND: int := 1_000_000_000
  const MAX_FAILURES: int := 5
  const COOLDOWN: int := 30 * SECOND

  datatype Session = Session(created: int, lastSeen: int)
  datatype Attempt = Attempt(failures: nat, lastFailure: int)

  datatype Tables = Tables(sessions: map<string, Session>, attempts: map<string, Attempt>)

  // ---------- The operations on the tables ----------

  predicate Expired(s: Session, timeout: int, now: int)
  {
    now - s.lastSeen >= timeout
  }

  predicate Stale(a: Attempt, now: int)
  {
    now - a.lastFailure > 10 * COOLDOWN
  }

  predicate Valid(t: Tables, token: string, timeout: int, now: int)
  {
    token != [] && token in t.sessions && !Expired(t.sessions[token], timeout, now)
  }

  function Touched(t: Tables, token: string, now: int): Tables
  {
    if token != [] && token in t.sessions then
      t.(sessions := t.sessions[token := t.sessions[token].(lastSeen := now)])
    else t
  }

  function Created(t: Tables, token: string, read: int): Tables
  {
    t.(sessions := t.sessions[token := Session(read, read)])
  }

  function Invalidated(t: Tables, token: string): Tables
  {
    t.(sessions := t.sessions - {token})
  }

  function Swept(t: Tables, timeout: int, now: int): Tables
  {
    Tables(map k | k in t.sessions && !Expired(t.sessions[k], timeout, now) :: t.sessions[k],
           map k | k in t.attempts && !Stale(t.attempts[k], now) :: t.attempts[k])
  }

  lemma SweptIs(before: Tables, after: Tables, timeout: int, now: int)
    requires after.sessions.Keys <= before.sessions.Keys && after.attempts.Keys <= before.attempts.Keys
    requires forall k | k in after.sessions :: after.sessions[k] == before.sessions[k]
    requires forall k | k in before.sessions ::
        k in after.sessions <==> !Expired(before.sessions[k], timeout, now)
    requires forall k | k in after.attempts :: after.attempts[k] == before.attempts[k]
    requires forall k | k in before.attempts :: k in after.attempts <==> !Stale(before.attempts[k], now)
    ensures after == Swept(before, timeout, now)
  {
    assert after.sessions == Swept(before, timeout, now).sessions;
    assert after.attempts == Swept(before, timeout, now).attempts;
  }

  predicate Limited(t: Tables, ip: string, now: int)
  {
    && ip in t.attempts && t.attempts[ip].failures >= MAX_FAILURES
    && now - t.attempts[ip].lastFailure < COOLDOWN
  }

  /** An address that is not in the table starts from no failures, at the start of the clock. */
  function AttemptOf(t: Tables, ip: string): Attempt
  {
    if ip in t.attempts then t.attempts[ip] else Attempt(0, 0)
  }

  function FailuresAfter(a: Attempt, read: int): nat
  {
    (if read - a.lastFailure > COOLDOWN then 0 else a.failures) + 1
  }

  function Failed(t: Tables, ip: string, read: int): Tables
  {
    t.(attempts := t.attempts[ip := Attempt(FailuresAfter(AttemptOf(t, ip), read), read)])
  }

  datatype Password = Malformed | IllTyped | Wrong | Right(token: string)

  class AuthManager {
    var sessions: map<string, Session>
    var attempts: map<string, Attempt>
    var timeout: int
    var setupComplete: bool

    function State(): Tables
      reads this
    {
      Tables(sessions, attempts)
    }

    method CreateSession(token: string, read: int)
      modifies this`sessions
      ensures sessions == old(sessions)[token := Session(read, read)]
      ensures State() == Created(old(State()), token, read)
    {
      sessions := sessions[token := Session(read, read)];
    }

    method IsValidSession(token: string, now: int) returns (valid: bool)
      ensures valid <==> token != [] && token in sessions && now - sessions[token].lastSeen < timeout
      ensures valid == Valid(State(), token, timeout, now)
    {
      if token == [] {
        return false;
      }
      if token !in sessions {
        return false;
      }
      var elapsed := now - sessions[token].lastSeen;
      return elapsed < timeout;
    }

    method TouchSession(token: string, now: int)
      modifies this`sessions
      ensures sessions == if token == [] || token !in old(sessions) then old(sessions)
                          else old(sessions)[token := Session(old(sessions)[token].created, now)]
      ensures State() == Touched(old(State()), token, now)
    {
      if token == [] {
        return;
      }
      if token in sessions {
        sessions := sessions[token := sessions[token].(lastSeen := now)];
      }
    }

    /** Both tables are walked in an order of their own and the old entries erased on the way. */
    method ExpireSessions(read: int)
      modifies this`sessions, this`attempts
      ensures forall k :: k in sessions <==> k in old(sessions) && read - old(sessions)[k].lastSeen < timeout
      ensures forall k | k in sessions :: sessions[k] == old(sessions)[k]
      ensures forall k :: k in attempts <==>
        k in old(attempts) && read - old(attempts)[k].lastFailure <= 300 * 1_000_000_000
      ensures forall k | k in attempts :: attempts[k] == old(attempts)[k]
      ensures State() == Swept(old(State()), timeout, read)
    {
      hide Swept;
      var toVisit := sessions.Keys;
      while toVisit != {}
        invariant attempts == old(attempts) && toVisit <= sessions.Keys <= old(sessions).Keys
        invariant forall k | k in sessions :: sessions[k] == old(sessions)[k]
        invariant forall k | k in old(sessions) && k !in toVisit ::
            k in sessions <==> !Expired(old(sessions)[k], timeout, read)
        decreases |toVisit|
      {
        var k :| k in toVisit;
        toVisit := toVisit - {k};
        if read - sessions[k].lastSeen >= timeout {
          sessions := sessions - {k};
        }
      }
      ghost var live := sessions;
      toVisit := attempts.Keys;
      while toVisit != {}
        invariant sessions == live && toVisit <= attempts.Keys <= old(attempts).Keys
        invariant forall k | k in attempts :: attempts[k] == old(attempts)[k]
        invariant forall k | k in old(attempts) && k !in toVisit ::
            k in attempts <==> !Stale(old(attempts)[k], read)
        decreases |toVisit|
      {
        var k :| k in toVisit;
        toVisit := toVisit - {k};
        var elapsed := read - attempts[k].lastFailure;
        if elapsed > 10 * COOLDOWN {
          attempts := attempts - {k};
        }
      }
      SweptIs(old(State()), State(), timeout, read);
    }

    method InvalidateSession(token: string)
      modifies this`sessions
      ensures sessions == old(sessions) - {token}
      ensures State() == Invalidated(old(State()), token)
    {
      sessions := sessions - {token};
    }

    /**
     The check and the touch are two critical sections, and each reads the clock inside. `others` is
     what other threads make of the sessions between the two.
     */
    method IsAuthenticated(sid: string, keyAccepted: bool, checked: int, touched: int,
                           others: map<string, Session> -> map<string, Session>) returns (ok: bool)
      modifies this`sessions
      ensures ok == (!setupComplete || Valid(old(State()), sid, timeout, checked) || keyAccepted)
      ensures State() == if setupComplete && Valid(old(State()), sid, timeout, checked)
                         then Touched(Tables(others(old(sessions)), attempts), sid, touched) else old(State())
    {
      if !setupComplete {
        return true;
      }
      var valid := IsValidSession(sid, checked);
      if valid {
        sessions := others(sessions);
        TouchSession(sid, touched);
        return true;
      }
      if keyAccepted {
        return true;
      }
      return false;
    }

    /** `read` is the time before the mutex was taken; others may have recorded later times since. */
    method RecordFailedLogin(ip: string, read: int) returns (limited: bool)
      modifies this`attempts
      ensures var counts := ip in old(attempts) && read - old(attempts)[ip].lastFailure <= 30 * 1_000_000_000;
        var failures := if counts then old(attempts)[ip].failures + 1 else 1;
        attempts == old(attempts)[ip := Attempt(failures, read)] && (limited <==> failures >= 5)
      ensures State() == Failed(old(State()), ip, read)
      ensures limited == (AttemptOf(State(), ip).failures >= MAX_FAILURES)
    {
      var attempt := if ip in attempts then attempts[ip] else Attempt(0, 0);
      var elapsed := read - attempt.lastFailure;
      if elapsed > COOLDOWN {
        attempt := attempt.(failures := 0);
      }
      attempt := Attempt(attempt.failures + 1, read);
      attempts := attempts[ip := attempt];
      return attempt.failures >= MAX_FAILURES;
    }

    method IsRateLimited(ip: string, now: int) returns (limited: bool)
      ensures limited <==>
        ip in attempts && attempts[ip].failures >= 5 && now - attempts[ip].lastFailure < 30 * 1_000_000_000
      ensures limited == Limited(State(), ip, now)
    {
      if ip !in attempts {
        return false;
      }
      if attempts[ip].failures < MAX_FAILURES {
        return false;
      }
      var elapsed := now - attempts[ip].lastFailure;
      return elapsed < COOLDOWN;
    }

    /**
     The login route: limit, body, password, and only then the record or the session. `others` is what
     other requests make of the tables between the limit check and the end.
     */
    method Login(ip: string, password: Password, checked: int, read: int, others: Tables -> Tables)
        returns (status: int)
      modifies this`sessions, this`attempts
      ensures status == 429 <==> Limited(old(State()), ip, checked)
      ensures status != 429 ==> status == match password
        case Malformed => 400
        case IllTyped => 500
        case Wrong => 401
        case Right(_) => 200
      ensures State() ==
        if status == 429 then old(State())
        else if status == 401 then Failed(others(old(State())), ip, read)
        else if status == 200 then Created(others(old(State())), password.token, read)
        else others(old(State()))
    {
      var limited := IsRateLimited(ip, checked);
      if limited {
        return 429;
      }
      var now := others(State());
      sessions, attempts := now.sessions, now.attempts;
      match password
      case Malformed =>
        return 400;
      case IllTyped =>
        return 500;
      case Wrong =>
        var _ := RecordFailedLogin(ip, read);
        return 401;
      case Right(token) =>
        CreateSession(token, read);
        return 200;
    }
  }

  // ---------- The life of a session ----------

  /** `is_authenticated` is a `Check` and, when that succeeds, a `Touch` some time later. */
  datatype Event =
    | Sweep(read: int)
    | Create(token: string, read: int)
    | Check(token: string)
    | Touch(token: string)
    | Invalidate(token: string)
    | Fail(ip: string, read: int)
    | AskLimit(ip: string)

  /** `now` is the time inside the mutex. */
  datatype Timed = Timed(event: Event, now: int)

  function Step(t: Tables, timeout: int, e: Timed): (Tables, bool)
  {
    match e.event
    case Sweep(read) => (Swept(t, timeout, read), true)
    case Create(token, read) => (Created(t, token, read), true)
    case Check(token) => (t, Valid(t, token, timeout, e.now))
    case Touch(token) => (Touched(t, token, e.now), true)
    case Invalidate(token) => (Invalidated(t, token), true)
    case Fail(ip, read) => (Failed(t, ip, read), AttemptOf(Failed(t, ip, read), ip).failures >= MAX_FAILURES)
    case AskLimit(ip) => (t, Limited(t, ip, e.now))
  }

  function TablesAfter(t: Tables, timeout: int, events: seq<Timed>): Tables
    decreases |events|
  {
    if events == [] then t else TablesAfter(Step(t, timeout, events[0]).0, timeout, events[1..])
  }

  /** When a token was last seen, if it stands for a session: by login, touch and logout alone. */
  function Seen(token: string, seen: Option<int>, events: seq<Timed>): Option<int>
    decreases |events|
  {
    if events == [] then seen else Seen(token, NextSeen(token, seen, events[0]), events[1..])
  }

  function NextSeen(token: string, seen: Option<int>, e: Timed): Option<int>
  {
    match e.event
    case Create(other, read) => if other == token then Some(read) else seen
    case Touch(other) => if other == token && seen != None then Some(e.now) else seen
    case Invalidate(other) => if other == token then None else seen
    case _ => seen
  }

  predicate Knows(t: Tables, token: string, seen: Option<int>)
  {
    if token in t.sessions then seen == Some(t.sessions[token].lastSeen) else seen == None
  }

  lemma SeenStep(t: Tables, timeout: int, token: string, seen: Option<int>, e: Timed)
    requires token != [] && Knows(t, token, seen) && !e.event.Sweep?
    ensures Knows(Step(t, timeout, e).0, token, NextSeen(token, seen, e))
  {
  }

  lemma {:induction false} SeenFollows(t: Tables, timeout: int, token: string, seen: Option<int>, events: seq<Timed>)
    requires token != [] && Knows(t, token, seen)
    requires forall i | 0 <= i < |events| :: !events[i].event.Sweep?
    ensures Knows(TablesAfter(t, timeout, events), token, Seen(token, seen, events))
    decreases |events|
  {
    hide Step;
    hide Knows;
    hide NextSeen;
    if events != [] {
      var e := events[0];
      SeenStep(t, timeout, token, seen, e);
      SeenFollows(Step(t, timeout, e).0, timeout, token, NextSeen(token, seen, e), events[1..]);
    }
  }

  /**
   A session is valid exactly from its login on, as long as it was seen less than the timeout ago and
   has not been logged out, whatever happens to others.
   */
  lemma SessionLives(timeout: int, token: string, events: seq<Timed>, now: int)
    requires forall i | 0 <= i < |events| :: !events[i].event.Sweep?
    ensures var seen := Seen(token, None, events);
      Step(TablesAfter(Tables(map[], map[]), timeout, events), timeout, Timed(Check(token), now)).1
      <==> token != [] && seen != None && now - seen.value < timeout
  {
    if token != [] {
      SeenFollows(Tables(map[], map[]), timeout, token, None, events);
    }
  }

  /** After a login the token is valid for the timeout, and after a logout not at all. */
  lemma LoginThenLogout(t: Tables, timeout: int, token: string, read: int, now: int)
    requires token != []
    ensures Valid(Created(t, token, read), token, timeout, now) <==> now - read < timeout
    ensures !Valid(Invalidated(Created(t, token, read), token), token, timeout, now)
  {
  }

  // ---------- When sweeps cannot be observed ----------

  /** What the callers are answered; a sweep answers nobody. */
  function Answers(t: Tables, timeout: int, events: seq<Timed>): seq<bool>
    decreases |events|
  {
    if events == [] then []
    else
      var (after, answer) := Step(t, timeout, events[0]);
      (if events[0].event.Sweep? then [] else [answer]) + Answers(after, timeout, events[1..])
  }

  function WithoutSweeps(events: seq<Timed>): seq<Timed>
    decreases |events|
  {
    if events == [] then []
    else (if events[0].event.Sweep? then [] else [events[0]]) + WithoutSweeps(events[1..])
  }

  /** The mutex is taken in the order of time. */
  predicate Monotone(events: seq<Timed>, clock: int)
    decreases |events|
  {
    events == [] || (clock <= events[0].now && Monotone(events[1..], events[0].now))
  }

  /** Readings are not from the future, and no failure is recorded more than `late` after its reading. */
  predicate Timely(events: seq<Timed>, late: int)
  {
    forall i | 0 <= i < |events| :: InTime(events[i], late)
  }

  predicate InTime(e: Timed, late: int)
  {
    && (e.event.Sweep? || e.event.Create? || e.event.Fail? ==> e.event.read <= e.now)
    && (e.event.Fail? ==> e.now - e.event.read <= late)
  }

  /** A failure that old is counted from one, with or without the entry that a sweep removes. */
  const MAX_LATE: int := 9 * COOLDOWN

  predicate MeetsLive(t: Tables, timeout: int, e: Timed)
  {
    e.event.Touch? && e.event.token != [] && e.event.token in t.sessions ==>
      !Expired(t.sessions[e.event.token], timeout, e.now)
  }

  /** In this run every touch meets a session that is unexpired or absent. */
  predicate TouchesMeetLive(t: Tables, timeout: int, events: seq<Timed>)
    decreases |events|
  {
    events == []
    || (MeetsLive(t, timeout, events[0]) && TouchesMeetLive(Step(t, timeout, events[0]).0, timeout, events[1..]))
  }

  /** The smaller tables lack nothing but expired sessions and stale attempts. */
  predicate Lacks(full: Tables, swept: Tables, timeout: int, now: int)
  {
    && (forall k | k in swept.sessions :: k in full.sessions && full.sessions[k] == swept.sessions[k])
    && (forall k | k in full.sessions && k !in swept.sessions :: Expired(full.sessions[k], timeout, now))
    && (forall k | k in swept.attempts :: k in full.attempts && full.attempts[k] == swept.attempts[k])
    && (forall k | k in full.attempts && k !in swept.attempts :: Stale(full.attempts[k], now))
  }

  lemma SessionStepAgrees(full: Tables, swept: Tables, timeout: int, clock: int, e: Timed)
    requires Lacks(full, swept, timeout, clock) && clock <= e.now && MeetsLive(full, timeout, e)
    requires e.event.Create? || e.event.Check? || e.event.Touch? || e.event.Invalidate?
    ensures Step(full, timeout, e).1 == Step(swept, timeout, e).1
    ensures Lacks(Step(full, timeout, e).0, Step(swept, timeout, e).0, timeout, e.now)
  {
  }

  lemma AttemptStepAgrees(full: Tables, swept: Tables, timeout: int, clock: int, e: Timed)
    requires Lacks(full, swept, timeout, clock) && clock <= e.now && InTime(e, MAX_LATE)
    requires e.event.Fail? || e.event.AskLimit?
    ensures Step(full, timeout, e).1 == Step(swept, timeout, e).1
    ensures Lacks(Step(full, timeout, e).0, Step(swept, timeout, e).0, timeout, e.now)
  {
    assert e.event.Fail? ==>
        FailuresAfter(AttemptOf(full, e.event.ip), e.event.read)
        == FailuresAfter(AttemptOf(swept, e.event.ip), e.event.read);
  }

  lemma StepAgrees(full: Tables, swept: Tables, timeout: int, clock: int, e: Timed)
    requires Lacks(full, swept, timeout, clock) && clock <= e.now && InTime(e, MAX_LATE)
    requires MeetsLive(full, timeout, e) && !e.event.Sweep?
    ensures Step(full, timeout, e).1 == Step(swept, timeout, e).1
    ensures Lacks(Step(full, timeout, e).0, Step(swept, timeout, e).0, timeout, e.now)
  {
    hide Step;
    hide Lacks;
    if e.event.Fail? || e.event.AskLimit? {
      AttemptStepAgrees(full, swept, timeout, clock, e);
    } else {
      SessionStepAgrees(full, swept, timeout, clock, e);
    }
  }

  lemma SweepAgrees(full: Tables, swept: Tables, timeout: int, clock: int, read: int, now: int)
    requires Lacks(full, swept, timeout, clock) && clock <= now && read <= now
    ensures Lacks(full, Swept(swept, timeout, read), timeout, now)
  {
  }

  lemma SweepStep(t: Tables, timeout: int, e: Timed)
    requires e.event.Sweep?
    ensures Step(t, timeout, e).0 == Swept(t, timeout, e.event.read)
  {
  }

  lemma {:induction false} AnswersAgree(full: Tables, swept: Tables, timeout: int, clock: int, events: seq<Timed>)
    requires Lacks(full, swept, timeout, clock) && Monotone(events, clock) && Timely(events, MAX_LATE)
    requires TouchesMeetLive(full, timeout, WithoutSweeps(events))
    ensures Answers(full, timeout, WithoutSweeps(events)) == Answers(swept, timeout, events)
    decreases |events|
  {
    hide Step;
    hide Lacks;
    hide MeetsLive;
    if events != [] {
      var e, rest := events[0], events[1..];
      assert InTime(e, MAX_LATE) && Timely(rest, MAX_LATE);
      if e.event.Sweep? {
        SweepStep(swept, timeout, e);
        SweepAgrees(full, swept, timeout, clock, e.event.read, e.now);
        assert WithoutSweeps(events) == [] + WithoutSweeps(rest) == WithoutSweeps(rest);
        var after := Swept(swept, timeout, e.event.read);
        assert Answers(swept, timeout, events) == [] + Answers(after, timeout, rest);
        AnswersAgree(full, after, timeout, e.now, rest);
      } else {
        assert WithoutSweeps(events)[0] == e && WithoutSweeps(events)[1..] == WithoutSweeps(rest);
        StepAgrees(full, swept, timeout, clock, e);
        AnswersAgree(Step(full, timeout, e).0, Step(swept, timeout, e).0, timeout, e.now, rest);
      }
    }
  }

  /**
   Sweeping at any times changes no answer, if in the run without sweeps every touch meets a session
   that is unexpired or absent, and no failure is recorded later than nine cooldowns after its reading.
   */
  lemma SweepsUnobservable(t: Tables, timeout: int, clock: int, events: seq<Timed>)
    requires Monotone(events, clock) && Timely(events, MAX_LATE)
    requires TouchesMeetLive(t, timeout, WithoutSweeps(events))
    ensures Answers(t, timeout, events) == Answers(t, timeout, WithoutSweeps(events))
  {
    AnswersAgree(t, t, timeout, clock, events);
  }

  // ---------- The conditions are exact ----------

  /** A run with sweeps that follows `events` for some time and ends with a check. */
  predicate Asks(swept: seq<Timed>, events: seq<Timed>)
  {
    var u := WithoutSweeps(swept);
    u != [] && u[|u| - 1].event.Check? && u[..|u| - 1] <= events
  }

  predicate NoSweeps(events: seq<Timed>)
  {
    forall i | 0 <= i < |events| :: !events[i].event.Sweep?
  }

  lemma FirstEvent(t: Tables, timeout: int, e: Timed, rest: seq<Timed>)
    ensures WithoutSweeps([e] + rest) == (if e.event.Sweep? then [] else [e]) + WithoutSweeps(rest)
    ensures Answers(t, timeout, [e] + rest)
      == (if e.event.Sweep? then [] else [Step(t, timeout, e).1]) + Answers(Step(t, timeout, e).0, timeout, rest)
    ensures forall clock | clock <= e.now && Monotone(rest, e.now) :: Monotone([e] + rest, clock)
  {
    hide Step;
    assert ([e] + rest)[1..] == rest;
  }

  lemma NoEvent(t: Tables, timeout: int)
    ensures Answers(t, timeout, []) == [] && WithoutSweeps([]) == []
  {
  }

  /** A touch of its own tells at once: without the sweep it revives the expired session. */
  lemma BareTouchReveals(t: Tables, timeout: int, token: string, now: int)
    requires timeout > 0 && token != [] && token in t.sessions && Expired(t.sessions[token], timeout, now)
    ensures var touchAndCheck := [Timed(Touch(token), now)] + ([Timed(Check(token), now)] + []);
      && Answers(t, timeout, touchAndCheck) == [true, true]
      && Answers(t, timeout, [Timed(Sweep(now), now)] + touchAndCheck) == [true, false]
      && WithoutSweeps([Timed(Sweep(now), now)] + touchAndCheck) == touchAndCheck
      && Monotone([Timed(Sweep(now), now)] + touchAndCheck, now)
  {
    hide Answers;
    hide WithoutSweeps;
    var sweep, touch, check := Timed(Sweep(now), now), Timed(Touch(token), now), Timed(Check(token), now);
    var swept := Swept(t, timeout, now);
    FirstEvent(t, timeout, sweep, [touch] + ([check] + []));
    FirstEvent(t, timeout, touch, [check] + []);
    FirstEvent(swept, timeout, touch, [check] + []);
    FirstEvent(Touched(t, token, now), timeout, check, []);
    FirstEvent(swept, timeout, check, []);
    NoEvent(Touched(t, token, now), timeout);
    NoEvent(swept, timeout);
    assert forall b: bool :: [b] + [] == [b];
    assert [true] + [true] == [true, true] && [true] + [false] == [true, false];
  }

  /** A touch that meets an expired session is given away by a sweep right before it. */
  lemma {:induction false} Revealed(t: Tables, timeout: int, clock: int, events: seq<Timed>)
      returns (swept: seq<Timed>)
    requires timeout > 0 && Monotone(events, clock) && Timely(events, MAX_LATE) && NoSweeps(events)
    requires !TouchesMeetLive(t, timeout, events)
    ensures Asks(swept, events) && Monotone(swept, clock) && Timely(swept, MAX_LATE)
    ensures Answers(t, timeout, swept) != Answers(t, timeout, WithoutSweeps(swept))
    decreases |events|
  {
    hide Answers;
    hide WithoutSweeps;
    hide Step;
    hide Monotone;
    var e := events[0];
    assert InTime(e, MAX_LATE) && clock <= e.now && Monotone(events[1..], e.now) by { MonotoneFirst(events, clock); }
    if !MeetsLive(t, timeout, e) {
      var token := e.event.token;
      BareTouchReveals(t, timeout, token, e.now);
      var u := [Timed(Touch(token), e.now)] + ([Timed(Check(token), e.now)] + []);
      swept := [Timed(Sweep(e.now), e.now)] + u;
      assert u[..|u| - 1] == [e] && u[|u| - 1].event.Check?;
      MonotoneFrom(swept, e.now, clock);
    } else {
      var (after, answer) := Step(t, timeout, e);
      var rest := Revealed(after, timeout, e.now, events[1..]);
      swept := [e] + rest;
      FirstEvent(t, timeout, e, rest);
      FirstEvent(t, timeout, e, WithoutSweeps(rest));
      var u := WithoutSweeps(rest);
      assert WithoutSweeps(swept) == [e] + u;
      assert ([e] + u)[..|u|] == [e] + u[..|u| - 1];
      assert Answers(t, timeout, swept)[1..] == Answers(after, timeout, rest);
      assert Answers(t, timeout, [e] + u)[1..] == Answers(after, timeout, u);
    }
  }

  lemma MonotoneFirst(events: seq<Timed>, clock: int)
    requires events != [] && Monotone(events, clock)
    ensures clock <= events[0].now && Monotone(events[1..], events[0].now)
  {
  }

  lemma MonotoneFrom(events: seq<Timed>, later: int, clock: int)
    requires Monotone(events, later) && clock <= later
    ensures Monotone(events, clock)
  {
  }

  lemma {:induction false} AskedMeetsLive(t: Tables, timeout: int, asked: seq<Timed>, events: seq<Timed>)
    requires asked != [] && asked[|asked| - 1].event.Check? && asked[..|asked| - 1] <= events
    requires TouchesMeetLive(t, timeout, events)
    ensures TouchesMeetLive(t, timeout, asked)
    decreases |asked|
  {
    hide Step;
    if |asked| > 1 {
      assert asked[..|asked| - 1][0] == asked[0] == events[0];
      assert asked[1..][..|asked[1..]| - 1] == asked[..|asked| - 1][1..] <= events[1..];
      AskedMeetsLive(Step(t, timeout, asked[0]).0, timeout, asked[1..], events[1..]);
    } else {
      assert asked[1..] == [];
    }
  }

  /**
   Whatever the calls, no sweep can be told by a check at any time if and only if every touch meets a
   session that is unexpired or absent at that time.
   */
  lemma UnobservableExactlyIf(t: Tables, timeout: int, clock: int, events: seq<Timed>)
    requires timeout > 0 && Monotone(events, clock) && Timely(events, MAX_LATE) && NoSweeps(events)
    ensures TouchesMeetLive(t, timeout, events) <==>
      forall swept: seq<Timed> | Asks(swept, events) && Monotone(swept, clock) && Timely(swept, MAX_LATE) ::
        Answers(t, timeout, swept) == Answers(t, timeout, WithoutSweeps(swept))
  {
    if TouchesMeetLive(t, timeout, events) {
      forall swept: seq<Timed> | Asks(swept, events) && Monotone(swept, clock) && Timely(swept, MAX_LATE)
        ensures Answers(t, timeout, swept) == Answers(t, timeout, WithoutSweeps(swept))
      {
        AskedMeetsLive(t, timeout, WithoutSweeps(swept), events);
        SweepsUnobservable(t, timeout, clock, swept);
      }
    } else {
      var swept := Revealed(t, timeout, clock, events);
    }
  }

  /**
   So `is_authenticated` alone does not hide the sweeps: it reads the clock once to check and once to
   touch, and a session can expire and be swept in between.
   */
  lemma SplitCheckReveals(t: Tables, timeout: int, token: string, checked: int, touched: int)
    requires token != [] && token in t.sessions && timeout > 0 && checked <= touched
    requires !Expired(t.sessions[token], timeout, checked) && Expired(t.sessions[token], timeout, touched)
    ensures var check, touch := Timed(Check(token), checked), Timed(Touch(token), touched);
      var again, sweep := Timed(Check(token), touched), Timed(Sweep(touched), touched);
      && Answers(t, timeout, [check] + ([touch] + ([again] + []))) == [true, true, true]
      && Answers(t, timeout, [check] + ([sweep] + ([touch] + ([again] + [])))) == [true, true, false]
  {
    hide Answers;
    var check, sweep := Timed(Check(token), checked), Timed(Sweep(touched), touched);
    var rest := [Timed(Touch(token), touched)] + ([Timed(Check(token), touched)] + []);
    BareTouchReveals(t, timeout, token, touched);
    FirstEvent(t, timeout, check, rest);
    FirstEvent(t, timeout, check, [sweep] + rest);
    assert [true] + [true, true] == [true, true, true] && [true] + [true, false] == [true, true, false];
  }

  predicate NoTouches(events: seq<Timed>)
  {
    forall i | 0 <= i < |events| :: !events[i].event.Touch?
  }

  lemma {:induction false} NoTouchesMeetLive(t: Tables, timeout: int, events: seq<Timed>)
    requires NoTouches(events)
    ensures TouchesMeetLive(t, timeout, WithoutSweeps(events))
    decreases |events|
  {
    hide Step;
    if events != [] {
      var rest := WithoutSweeps(events[1..]);
      if events[0].event.Sweep? {
        NoTouchesMeetLive(t, timeout, events[1..]);
        assert WithoutSweeps(events) == [] + rest == rest;
      } else {
        NoTouchesMeetLive(Step(t, timeout, events[0]).0, timeout, events[1..]);
        assert WithoutSweeps(events)[1..] == rest;
      }
    }
  }

  const NOTHING: Tables := Tables(map[], map[])

  /** The limit on lateness is exact: one tick more, and a sweep lets an address start from one again. */
  lemma LatenessExactly(late: int)
    ensures late <= MAX_LATE <==>
      forall timeout: int, events: seq<Timed> | Monotone(events, 0) && Timely(events, late) && NoTouches(events) ::
        Answers(NOTHING, timeout, events) == Answers(NOTHING, timeout, WithoutSweeps(events))
  {
    if late <= MAX_LATE {
      forall timeout: int, events: seq<Timed> | Monotone(events, 0) && Timely(events, late) && NoTouches(events)
        ensures Answers(NOTHING, timeout, events) == Answers(NOTHING, timeout, WithoutSweeps(events))
      {
        assert Timely(events, MAX_LATE) by {
          forall i | 0 <= i < |events| ensures InTime(events[i], MAX_LATE) {
            assert InTime(events[i], late);
          }
        }
        NoTouchesMeetLive(NOTHING, timeout, events);
        SweepsUnobservable(NOTHING, timeout, 0, events);
      }
    } else {
      var events := LateFailure();
      assert Timely(events, late) by {
        forall i | 0 <= i < |events| ensures InTime(events[i], late) {
          assert InTime(events[i], MAX_LATE + 1);
        }
      }
      assert Answers(NOTHING, 0, events) != Answers(NOTHING, 0, WithoutSweeps(events));
    }
  }

  const AFTER_SWEEP: int := 10 * COOLDOWN + 1
  const FOUR_FAILED: Tables := Tables(map[], map[[] := Attempt(4, 0)])
  const AT_START: Timed := Timed(Fail([], 0), 0)
  const LATE_FAILURE: Timed := Timed(Fail([], COOLDOWN), AFTER_SWEEP)
  const SWEPT_FAILURE: seq<Timed> := [Timed(Sweep(AFTER_SWEEP), AFTER_SWEEP)] + ([LATE_FAILURE] + [])

  /** The sweeps in these events make a difference to somebody. */
  predicate Told(t: Tables, events: seq<Timed>)
  {
    Answers(t, 0, events) != Answers(t, 0, WithoutSweeps(events)) && Monotone(events, 0)
  }

  /** One failure more than four is enough, one after a sweep is not. */
  lemma LastTells()
    ensures Told(FOUR_FAILED, SWEPT_FAILURE)
  {
    hide Answers;
    hide WithoutSweeps;
    var sweep, end := Timed(Sweep(AFTER_SWEEP), AFTER_SWEEP), [LATE_FAILURE] + [];
    NoEvent(Step(FOUR_FAILED, 0, LATE_FAILURE).0, 0);
    NoEvent(Step(NOTHING, 0, LATE_FAILURE).0, 0);
    FirstEvent(FOUR_FAILED, 0, LATE_FAILURE, []);
    FirstEvent(NOTHING, 0, LATE_FAILURE, []);
    FirstEvent(FOUR_FAILED, 0, sweep, end);
    assert Swept(FOUR_FAILED, 0, AFTER_SWEEP) == NOTHING;
    assert WithoutSweeps([sweep] + end) == [] + WithoutSweeps(end) == end;
    assert Answers(FOUR_FAILED, 0, end)[0] && !Answers(FOUR_FAILED, 0, [sweep] + end)[0];
  }

  lemma Prefixed(t: Tables, rest: seq<Timed>)
    ensures Told(Step(t, 0, AT_START).0, rest) ==> Told(t, [AT_START] + rest)
  {
    hide Answers;
    hide WithoutSweeps;
    hide Step;
    var (after, answer) := Step(t, 0, AT_START);
    FirstEvent(t, 0, AT_START, rest);
    FirstEvent(t, 0, AT_START, WithoutSweeps(rest));
    assert WithoutSweeps([AT_START] + rest) == [AT_START] + WithoutSweeps(rest);
    assert ([answer] + Answers(after, 0, rest))[1..] == Answers(after, 0, rest);
    assert ([answer] + Answers(after, 0, WithoutSweeps(rest)))[1..] == Answers(after, 0, WithoutSweeps(rest));
  }

  /** Four failures at the start; the fifth is read a cooldown later and recorded after a sweep. */
  lemma LateFailure() returns (events: seq<Timed>)
    ensures Timely(events, MAX_LATE + 1) && NoTouches(events) && Told(NOTHING, events)
  {
    hide Told;
    var t1 := Step(NOTHING, 0, AT_START).0;
    var t2 := Step(t1, 0, AT_START).0;
    var t3 := Step(t2, 0, AT_START).0;
    assert Step(t3, 0, AT_START).0 == FOUR_FAILED;
    LastTells();
    var e1 := [AT_START] + SWEPT_FAILURE;
    var e2 := [AT_START] + e1;
    var e3 := [AT_START] + e2;
    Prefixed(t3, SWEPT_FAILURE);
    Prefixed(t2, e1);
    Prefixed(t1, e2);
    Prefixed(NOTHING, e3);
    events := [AT_START] + e3;
  }
}
