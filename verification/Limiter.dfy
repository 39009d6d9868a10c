/**
 The login limiter over runs, with several worker threads. A login is a limit check, a reading of the
 clock when its password has turned out wrong, and a recording of that reading; the mutex is only
 held for the first and the last, so readings can be recorded in another order than they were taken.
 */
module Limiter {
  import opened Auth

  /** A worker between logins, past the limit check, or with a failure still to be recorded. */
  datatype Phase = Idle | Checked(ip: string) | Holding(ip: string, read: int)

  datatype Action =
    | Begin(w: nat, ip: string)
    | Read(w: nat)
    | Record(w: nat)
    | EndOtherwise(w: nat)
    | SweepOld(read: int)

  datatype Moment = Moment(action: Action, now: int)

  datatype Failure = Failure(ip: string, read: int)

  /** `taken` are the failed password checks in the order of their readings, `recorded` as recorded. */
  datatype Server = Server(tables: Tables, workers: seq<Phase>, taken: seq<Failure>, recorded: seq<Failure>)

  predicate Possible(s: Server, m: Moment)
  {
    match m.action
    case Begin(w, _) => w < |s.workers| && s.workers[w].Idle?
    case Read(w) => w < |s.workers| && s.workers[w].Checked?
    case Record(w) => w < |s.workers| && s.workers[w].Holding?
    case EndOtherwise(w) => w < |s.workers| && s.workers[w].Checked?
    case SweepOld(read) => read <= m.now
  }

  function Next(s: Server, m: Moment, timeout: int): Server
    requires Possible(s, m)
  {
    match m.action
    case Begin(w, ip) => if Limited(s.tables, ip, m.now) then s else s.(workers := s.workers[w := Checked(ip)])
    case Read(w) =>
      var ip := s.workers[w].ip;
      s.(workers := s.workers[w := Holding(ip, m.now)], taken := s.taken + [Failure(ip, m.now)])
    case Record(w) =>
      var ip, read := s.workers[w].ip, s.workers[w].read;
      s.(tables := Failed(s.tables, ip, read), workers := s.workers[w := Idle],
         recorded := s.recorded + [Failure(ip, read)])
    case EndOtherwise(w) => s.(workers := s.workers[w := Idle])
    case SweepOld(read) => s.(tables := Swept(s.tables, timeout, read))
  }

  /** No later reading of that address has been recorded before. */
  predicate InOrder(s: Server, m: Moment)
    requires Possible(s, m)
  {
    m.action.Record? ==>
      forall k | 0 <= k < |s.recorded| && s.recorded[k].ip == s.workers[m.action.w].ip ::
        s.recorded[k].read <= s.workers[m.action.w].read
  }

  /** The mutex is taken in the order of time; `ordered` says that readings are recorded in order, too. */
  predicate Legal(s: Server, clock: int, moments: seq<Moment>, timeout: int, ordered: bool)
    decreases |moments|
  {
    moments == []
    || (&& clock <= moments[0].now && Possible(s, moments[0]) && (ordered ==> InOrder(s, moments[0]))
        && Legal(Next(s, moments[0], timeout), moments[0].now, moments[1..], timeout, ordered))
  }

  function Final(s: Server, clock: int, moments: seq<Moment>, timeout: int, ordered: bool): Server
    requires Legal(s, clock, moments, timeout, ordered)
    decreases |moments|
  {
    if moments == [] then s
    else Final(Next(s, moments[0], timeout), moments[0].now, moments[1..], timeout, ordered)
  }

  function InWindow(f: Failure, ip: string, from: int, to: int): nat
  {
    if f.ip == ip && from <= f.read <= to then 1 else 0
  }

  /** Failed password checks of that address between two times. */
  function Within(log: seq<Failure>, ip: string, from: int, to: int): nat
  {
    if log == [] then 0 else Within(log[..|log| - 1], ip, from, to) + InWindow(log[|log| - 1], ip, from, to)
  }

  // ---------- Counting workers and failures ----------

  function Number(ws: seq<Phase>, f: Phase -> bool): nat
  {
    if ws == [] then 0 else (if f(ws[0]) then 1 else 0) + Number(ws[1..], f)
  }

  lemma {:induction false} NumberUpdate(ws: seq<Phase>, w: nat, p: Phase, f: Phase -> bool)
    requires w < |ws|
    ensures Number(ws[w := p], f) == Number(ws, f) + (if f(p) then 1 else 0) - (if f(ws[w]) then 1 else 0)
  {
    if w == 0 {
      assert ws[w := p][1..] == ws[1..];
    } else {
      assert ws[w := p][1..] == ws[1..][w - 1 := p];
      NumberUpdate(ws[1..], w - 1, p, f);
    }
  }

  lemma {:induction false} NumberApart(ws: seq<Phase>, f: Phase -> bool, g: Phase -> bool)
    requires forall p :: !(f(p) && g(p))
    ensures Number(ws, f) + Number(ws, g) <= |ws|
  {
    if ws != [] {
      NumberApart(ws[1..], f, g);
    }
  }

  lemma {:induction false} NumberPart(ws: seq<Phase>, f: Phase -> bool, g: Phase -> bool)
    requires forall p :: f(p) ==> g(p)
    ensures Number(ws, f) <= Number(ws, g)
  {
    if ws != [] {
      NumberPart(ws[1..], f, g);
    }
  }

  lemma {:induction false} NumberNone(ws: seq<Phase>, f: Phase -> bool)
    requires forall w | 0 <= w < |ws| :: !f(ws[w])
    ensures Number(ws, f) == 0
  {
    if ws != [] {
      assert forall w | 0 <= w < |ws[1..]| :: ws[1..][w] == ws[w + 1];
      NumberNone(ws[1..], f);
    }
  }

  /** Busy with that address, with no reading from before the window. */
  function Fresh(ip: string, from: int): Phase -> bool
  {
    (p: Phase) => (p.Checked? && p.ip == ip) || (p.Holding? && p.ip == ip && p.read >= from)
  }

  /** Holding a reading of that address from before the window. */
  function Old(ip: string, from: int): Phase -> bool
  {
    (p: Phase) => p.Holding? && p.ip == ip && p.read < from
  }

  /** Holding a reading of that address from the window. */
  function Held(ip: string, from: int): Phase -> bool
  {
    (p: Phase) => p.Holding? && p.ip == ip && p.read >= from
  }

  function Since(log: seq<Failure>, ip: string, from: int): nat
  {
    if log == [] then 0
    else
      var last := log[|log| - 1];
      Since(log[..|log| - 1], ip, from) + if last.ip == ip && from <= last.read then 1 else 0
  }

  /** How many of the last records of that address are from the window, up to one that is older. */
  function Trailing(log: seq<Failure>, ip: string, from: int): nat
  {
    if log == [] then 0
    else
      var last := log[|log| - 1];
      if last.ip != ip then Trailing(log[..|log| - 1], ip, from)
      else if last.read < from then 0
      else 1 + Trailing(log[..|log| - 1], ip, from)
  }

  lemma Appended(log: seq<Failure>, f: Failure, ip: string, from: int)
    ensures Since(log + [f], ip, from) == Since(log, ip, from) + if f.ip == ip && from <= f.read then 1 else 0
    ensures Trailing(log + [f], ip, from) ==
      if f.ip != ip then Trailing(log, ip, from) else if f.read < from then 0 else 1 + Trailing(log, ip, from)
    ensures forall to :: Within(log + [f], ip, from, to) == Within(log, ip, from, to) + InWindow(f, ip, from, to)
  {
    assert (log + [f])[..|log|] == log;
  }

  predicate ReadBy(log: seq<Failure>, ip: string, clock: int)
  {
    forall k | 0 <= k < |log| && log[k].ip == ip :: log[k].read <= clock
  }

  lemma {:induction false} NoneSince(log: seq<Failure>, ip: string, clock: int, from: int)
    requires ReadBy(log, ip, clock) && clock < from
    ensures Since(log, ip, from) == 0 && Trailing(log, ip, from) == 0
  {
    if log != [] {
      NoneSince(log[..|log| - 1], ip, clock, from);
      assert log[|log| - 1].ip == ip ==> log[|log| - 1].read <= clock;
    }
  }

  lemma {:induction false} WithinSince(log: seq<Failure>, ip: string, from: int, to: int)
    ensures Within(log, ip, from, to) <= Since(log, ip, from)
  {
    if log != [] {
      WithinSince(log[..|log| - 1], ip, from, to);
    }
  }

  // ---------- The bounds ----------

  /**
   What `free` workers that hold no reading from before a window can fail in it: after each old
   reading that is recorded, one more of them gets as far as the limit again.
   */
  function Reach(free: nat): nat
  {
    if free == 0 then 0 else Reach(free - 1) + MAX_FAILURES - 1 + free
  }

  lemma {:induction false} ReachGrows(a: nat, b: nat)
    requires a <= b
    ensures Reach(a) <= Reach(b)
    decreases b
  {
    if a < b {
      ReachGrows(a, b - 1);
    }
  }

  lemma {:induction false} ReachIs(n: nat)
    ensures 2 * Reach(n) == n * (2 * MAX_FAILURES - 1 + n)
  {
    if n > 0 {
      ReachIs(n - 1);
      assert n * (2 * MAX_FAILURES - 1 + n) == (n - 1) * (2 * MAX_FAILURES - 1 + (n - 1)) + 2 * (MAX_FAILURES - 1 + n);
    }
  }

  function Most(workers: nat, ordered: bool): nat
  {
    if ordered then MAX_FAILURES - 1 + workers else Reach(workers)
  }

  /** Where the limiter stands in a window that began at `from` and is still shorter than the cooldown. */
  ghost predicate Window(s: Server, ip: string, from: int, ordered: bool)
  {
    var n := |s.workers|;
    var busy, aged := Number(s.workers, Fresh(ip, from)), Number(s.workers, Old(ip, from));
    var phase, all := Trailing(s.recorded, ip, from), Since(s.recorded, ip, from);
    && (phase > 0 ==> ip in s.tables.attempts && s.tables.attempts[ip].lastFailure >= from
                      && s.tables.attempts[ip].failures >= phase)
    && (phase < MAX_FAILURES || phase + busy + aged <= MAX_FAILURES - 1 + n)
    && (aged < n ==> all - phase <= Reach(n - aged - 1))
    && (aged >= n ==> all == 0)
    && (ordered ==> all == phase)
    && Since(s.taken, ip, from) == all + Number(s.workers, Held(ip, from))
  }

  predicate Past(s: Server, ip: string, clock: int)
  {
    && (forall w | 0 <= w < |s.workers| && s.workers[w].Holding? && s.workers[w].ip == ip :: s.workers[w].read <= clock)
    && ReadBy(s.taken, ip, clock) && ReadBy(s.recorded, ip, clock)
  }

  ghost predicate Inv(s: Server, ip: string, clock: int, ordered: bool)
  {
    && Past(s, ip, clock)
    && (forall from | clock - from < COOLDOWN :: Window(s, ip, from, ordered))
    && (forall from, to | to - from < COOLDOWN :: Within(s.taken, ip, from, to) <= Most(|s.workers|, ordered))
  }

  /** A window that has not begun. */
  lemma FutureWindow(s: Server, ip: string, clock: int, from: int, ordered: bool)
    requires Past(s, ip, clock) && clock < from
    ensures Window(s, ip, from, ordered)
  {
    NoneSince(s.taken, ip, clock, from);
    NoneSince(s.recorded, ip, clock, from);
    NumberNone(s.workers, Held(ip, from));
  }

  lemma PastNext(s: Server, m: Moment, ip: string, clock: int, timeout: int)
    requires Past(s, ip, clock) && clock <= m.now && Possible(s, m)
    ensures Past(Next(s, m, timeout), ip, m.now)
  {
  }

  lemma Counts(ws: seq<Phase>, w: nat, p: Phase, ip: string, from: int)
    requires w < |ws|
    ensures Number(ws[w := p], Fresh(ip, from)) == Number(ws, Fresh(ip, from))
      + (if Fresh(ip, from)(p) then 1 else 0) - (if Fresh(ip, from)(ws[w]) then 1 else 0)
    ensures Number(ws[w := p], Old(ip, from)) == Number(ws, Old(ip, from))
      + (if Old(ip, from)(p) then 1 else 0) - (if Old(ip, from)(ws[w]) then 1 else 0)
    ensures Number(ws[w := p], Held(ip, from)) == Number(ws, Held(ip, from))
      + (if Held(ip, from)(p) then 1 else 0) - (if Held(ip, from)(ws[w]) then 1 else 0)
    ensures Number(ws, Fresh(ip, from)) + Number(ws, Old(ip, from)) <= |ws|
    ensures Number(ws[w := p], Fresh(ip, from)) + Number(ws[w := p], Old(ip, from)) <= |ws|
  {
    NumberUpdate(ws, w, p, Fresh(ip, from));
    NumberUpdate(ws, w, p, Old(ip, from));
    NumberUpdate(ws, w, p, Held(ip, from));
    NumberApart(ws, Fresh(ip, from), Old(ip, from));
    NumberApart(ws[w := p], Fresh(ip, from), Old(ip, from));
  }

  lemma BeginWindow(s: Server, w: nat, other: string, ip: string, from: int, now: int, timeout: int, ordered: bool)
    requires Window(s, ip, from, ordered) && now - from < COOLDOWN && Possible(s, Moment(Begin(w, other), now))
    ensures Window(Next(s, Moment(Begin(w, other), now), timeout), ip, from, ordered)
  {
    hide Number;
    hide Since;
    hide Trailing;
    hide Reach;
    Counts(s.workers, w, Checked(other), ip, from);
  }

  lemma ReadWindow(s: Server, w: nat, ip: string, from: int, now: int, timeout: int, ordered: bool)
    requires Window(s, ip, from, ordered) && from <= now && Possible(s, Moment(Read(w), now))
    ensures Window(Next(s, Moment(Read(w), now), timeout), ip, from, ordered)
  {
    hide Number;
    hide Since;
    hide Trailing;
    hide Reach;
    var other := s.workers[w].ip;
    Counts(s.workers, w, Holding(other, now), ip, from);
    Appended(s.taken, Failure(other, now), ip, from);
  }

  lemma EndWindow(s: Server, w: nat, ip: string, from: int, now: int, timeout: int, ordered: bool)
    requires Window(s, ip, from, ordered) && Possible(s, Moment(EndOtherwise(w), now))
    ensures Window(Next(s, Moment(EndOtherwise(w), now), timeout), ip, from, ordered)
  {
    hide Number;
    hide Since;
    hide Trailing;
    hide Reach;
    Counts(s.workers, w, Idle, ip, from);
  }

  lemma RecordWindow(s: Server, w: nat, ip: string, from: int, now: int, timeout: int, ordered: bool)
    requires Window(s, ip, from, ordered) && now - from < COOLDOWN && Possible(s, Moment(Record(w), now))
    requires ordered ==> InOrder(s, Moment(Record(w), now))
    requires s.workers[w].ip == ip ==> s.workers[w].read <= now
    ensures Window(Next(s, Moment(Record(w), now), timeout), ip, from, ordered)
  {
    hide Number;
    hide Since;
    hide Trailing;
    var other, read := s.workers[w].ip, s.workers[w].read;
    var n, aged := |s.workers|, Number(s.workers, Old(ip, from));
    Counts(s.workers, w, Idle, ip, from);
    Appended(s.recorded, Failure(other, read), ip, from);
    if other == ip && read < from {
      if ordered {
        NoneSince(s.recorded, ip, read, from);
      }
      assert aged < n ==> Reach(n - aged) == Reach(n - aged - 1) + MAX_FAILURES - 1 + (n - aged);
    }
  }

  lemma SweepWindow(s: Server, read: int, ip: string, from: int, now: int, timeout: int, ordered: bool)
    requires Window(s, ip, from, ordered) && now - from < COOLDOWN && read <= now
    ensures Window(Next(s, Moment(SweepOld(read), now), timeout), ip, from, ordered)
  {
    hide Number;
    hide Since;
    hide Trailing;
    hide Reach;
  }

  lemma StepWindow(s: Server, m: Moment, ip: string, clock: int, from: int, timeout: int, ordered: bool)
    requires Past(s, ip, clock) && Window(s, ip, from, ordered) && clock <= m.now && Possible(s, m)
    requires m.now - from < COOLDOWN && (ordered ==> InOrder(s, m))
    ensures Window(Next(s, m, timeout), ip, from, ordered)
  {
    hide Window;
    if m.now < from {
      PastNext(s, m, ip, clock, timeout);
      FutureWindow(Next(s, m, timeout), ip, m.now, from, ordered);
    } else {
      match m.action
      case Begin(w, other) => BeginWindow(s, w, other, ip, from, m.now, timeout, ordered);
      case Read(w) => ReadWindow(s, w, ip, from, m.now, timeout, ordered);
      case Record(w) => RecordWindow(s, w, ip, from, m.now, timeout, ordered);
      case EndOtherwise(w) => EndWindow(s, w, ip, from, m.now, timeout, ordered);
      case SweepOld(read) => SweepWindow(s, read, ip, from, m.now, timeout, ordered);
    }
  }

  /** A window never holds more than the bound. */
  lemma WindowFits(s: Server, ip: string, from: int, to: int, ordered: bool)
    requires Window(s, ip, from, ordered)
    ensures Within(s.taken, ip, from, to) <= Most(|s.workers|, ordered)
  {
    hide Number;
    hide Since;
    hide Trailing;
    var n, aged := |s.workers|, Number(s.workers, Old(ip, from));
    WithinSince(s.taken, ip, from, to);
    NumberApart(s.workers, Fresh(ip, from), Old(ip, from));
    NumberPart(s.workers, Held(ip, from), Fresh(ip, from));
    if aged < n {
      assert Reach(n - aged) == Reach(n - aged - 1) + MAX_FAILURES - 1 + (n - aged);
      ReachGrows(n - aged, n);
    }
  }

  lemma StepInv(s: Server, m: Moment, ip: string, clock: int, timeout: int, ordered: bool)
    requires Inv(s, ip, clock, ordered) && clock <= m.now && Possible(s, m) && (ordered ==> InOrder(s, m))
    ensures Inv(Next(s, m, timeout), ip, m.now, ordered)
  {
    hide Window;
    hide Within;
    hide Most;
    var next := Next(s, m, timeout);
    PastNext(s, m, ip, clock, timeout);
    forall from | m.now - from < COOLDOWN ensures Window(next, ip, from, ordered) {
      StepWindow(s, m, ip, clock, from, timeout, ordered);
    }
    forall from, to | to - from < COOLDOWN ensures Within(next.taken, ip, from, to) <= Most(|next.workers|, ordered) {
      if m.action.Read? {
        Appended(s.taken, Failure(s.workers[m.action.w].ip, m.now), ip, from);
        if m.now <= to {
          WindowFits(next, ip, from, to, ordered);
        }
      }
    }
  }

  lemma {:induction false} RunInv(s: Server, clock: int, moments: seq<Moment>, timeout: int, ordered: bool, ip: string)
    requires Inv(s, ip, clock, ordered) && Legal(s, clock, moments, timeout, ordered)
    ensures var end := Final(s, clock, moments, timeout, ordered);
      |end.workers| == |s.workers|
      && forall from, to | to - from < COOLDOWN :: Within(end.taken, ip, from, to) <= Most(|s.workers|, ordered)
    decreases |moments|
  {
    hide Window;
    hide Within;
    hide Most;
    if moments != [] {
      StepInv(s, moments[0], ip, clock, timeout, ordered);
      RunInv(Next(s, moments[0], timeout), moments[0].now, moments[1..], timeout, ordered, ip);
    }
  }

  /** A server that is watched from now on, whatever its tables hold. */
  function Watched(t: Tables, workers: nat): Server
  {
    Server(t, seq(workers, _ => Idle), [], [])
  }

  lemma WatchedInv(t: Tables, workers: nat, ip: string, clock: int, ordered: bool)
    ensures Inv(Watched(t, workers), ip, clock, ordered)
  {
    var s := Watched(t, workers);
    forall from ensures Window(s, ip, from, ordered) {
      NumberNone(s.workers, Fresh(ip, from));
      NumberNone(s.workers, Old(ip, from));
      NumberNone(s.workers, Held(ip, from));
    }
  }

  /**
   Over every interleaving of logins and sweeps, no window shorter than the cooldown holds more than
   Reach(workers) failed password checks of one address.
   */
  lemma FailuresBounded(t: Tables, workers: nat, clock: int, moments: seq<Moment>, timeout: int, ip: string,
                        from: int, to: int)
    requires Legal(Watched(t, workers), clock, moments, timeout, false) && to - from < COOLDOWN
    ensures Within(Final(Watched(t, workers), clock, moments, timeout, false).taken, ip, from, to) <= Reach(workers)
  {
    WatchedInv(t, workers, ip, clock, false);
    RunInv(Watched(t, workers), clock, moments, timeout, false, ip);
  }

  /** If the readings of an address are recorded in the order they were taken, each worker adds one. */
  lemma OrderedBounded(t: Tables, workers: nat, clock: int, moments: seq<Moment>, timeout: int, ip: string,
                       from: int, to: int)
    requires Legal(Watched(t, workers), clock, moments, timeout, true) && to - from < COOLDOWN
    ensures Within(Final(Watched(t, workers), clock, moments, timeout, true).taken, ip, from, to)
      <= MAX_FAILURES - 1 + workers
  {
    WatchedInv(t, workers, ip, clock, true);
    RunInv(Watched(t, workers), clock, moments, timeout, true, ip);
  }

  /** Handled one at a time, logins keep to the documented limit. */
  lemma OneAtATime(t: Tables, clock: int, moments: seq<Moment>, timeout: int, ip: string, from: int, to: int)
    requires Legal(Watched(t, 1), clock, moments, timeout, false) && to - from < COOLDOWN
    ensures Within(Final(Watched(t, 1), clock, moments, timeout, false).taken, ip, from, to) <= MAX_FAILURES
  {
    FailuresBounded(t, 1, clock, moments, timeout, ip, from, to);
    assert Reach(1) == Reach(0) + MAX_FAILURES == MAX_FAILURES;
  }

  // ---------- Both bounds are reached ----------

  /** The moments lead from the one server to the other, and none of them is later than `now`. */
  predicate Leads(s: Server, clock: int, moments: seq<Moment>, timeout: int, ordered: bool, end: Server, now: int)
  {
    && clock <= now && (forall i | 0 <= i < |moments| :: moments[i].now <= now)
    && Legal(s, clock, moments, timeout, ordered) && Final(s, clock, moments, timeout, ordered) == end
  }

  lemma {:induction false} Extended(s: Server, clock: int, moments: seq<Moment>, timeout: int, ordered: bool,
                                    end: Server, now: int, m: Moment)
    requires Leads(s, clock, moments, timeout, ordered, end, now)
    requires now <= m.now && Possible(end, m) && (ordered ==> InOrder(end, m))
    ensures Leads(s, clock, moments + [m], timeout, ordered, Next(end, m, timeout), m.now)
    decreases |moments|
  {
    hide Next;
    hide Possible;
    hide InOrder;
    if moments == [] {
      var next := Next(s, m, timeout);
      assert [] + [m] == [m] && [m][1..] == [];
      assert Legal(next, m.now, [], timeout, ordered) && Final(next, m.now, [], timeout, ordered) == next;
    } else {
      var rest := moments[1..];
      Extended(Next(s, moments[0], timeout), moments[0].now, rest, timeout, ordered, end, now, m);
      assert (moments + [m])[1..] == rest + [m];
    }
  }

  /** That many failures of the address count at this instant; with none, the next one starts from one. */
  predicate Counted(t: Tables, ip: string, now: int, k: nat)
  {
    if k == 0 then ip !in t.attempts || now - t.attempts[ip].lastFailure > COOLDOWN
    else ip in t.attempts && t.attempts[ip] == Attempt(k, now)
  }

  lemma FailedCounts(t: Tables, ip: string, now: int, k: nat)
    requires Counted(t, ip, now, k)
    ensures Counted(Failed(t, ip, now), ip, now, k + 1)
    ensures k < MAX_FAILURES ==> !Limited(t, ip, now)
  {
  }

  /** A log with that many more failures of the address, all read at that time. */
  ghost predicate Grown(log: seq<Failure>, more: seq<Failure>, ip: string, now: int, plus: nat)
  {
    forall from, to | from <= now <= to :: Within(more, ip, from, to) == Within(log, ip, from, to) + plus
  }

  lemma GrownByOne(log: seq<Failure>, more: seq<Failure>, ip: string, now: int, plus: nat)
    requires Grown(log, more, ip, now, plus)
    ensures Grown(log, more + [Failure(ip, now)], ip, now, plus + 1)
  {
    hide Within;
    forall from, to | from <= now <= to
      ensures Within(more + [Failure(ip, now)], ip, from, to) == Within(log, ip, from, to) + plus + 1
    {
      Appended(more, Failure(ip, now), ip, from);
    }
  }

  /** What a step of a burst leaves: only that many failures of the address at this instant are new. */
  ghost predicate Burst(start: Server, end: Server, ip: string, now: int, taken: nat, counted: nat)
  {
    && Counted(end.tables, ip, now, counted) && Grown(start.taken, end.taken, ip, now, taken)
    && ReadBy(end.recorded, ip, now)
  }

  /** A busy worker's password is wrong. */
  lemma Fails(s: Server, clock: int, moments: seq<Moment>, timeout: int, ordered: bool, start: Server, cur: Server,
              now: int, w: nat, ip: string, taken: nat, counted: nat)
      returns (more: seq<Moment>, end: Server)
    requires Leads(s, clock, moments, timeout, ordered, cur, now) && Burst(start, cur, ip, now, taken, counted)
    requires w < |cur.workers| && cur.workers[w] == Checked(ip)
    ensures Leads(s, clock, more, timeout, ordered, end, now) && Burst(start, end, ip, now, taken + 1, counted + 1)
    ensures end.workers == cur.workers[w := Idle]
  {
    hide Leads;
    hide Grown;
    hide Failed;
    hide Counted;
    var read, record := Moment(Read(w), now), Moment(Record(w), now);
    Extended(s, clock, moments, timeout, ordered, cur, now, read);
    var holding := Next(cur, read, timeout);
    Extended(s, clock, moments + [read], timeout, ordered, holding, now, record);
    more, end := moments + [read] + [record], Next(holding, record, timeout);
    GrownByOne(start.taken, cur.taken, ip, now, taken);
    FailedCounts(cur.tables, ip, now, counted);
  }

  lemma Begins(s: Server, clock: int, moments: seq<Moment>, timeout: int, ordered: bool, start: Server, cur: Server,
               now: int, w: nat, ip: string, taken: nat, counted: nat)
      returns (more: seq<Moment>, end: Server)
    requires Leads(s, clock, moments, timeout, ordered, cur, now) && Burst(start, cur, ip, now, taken, counted)
    requires counted < MAX_FAILURES && w < |cur.workers| && cur.workers[w] == Idle
    ensures Leads(s, clock, more, timeout, ordered, end, now) && Burst(start, end, ip, now, taken, counted)
    ensures end.workers == cur.workers[w := Checked(ip)]
  {
    hide Leads;
    hide Grown;
    var begin := Moment(Begin(w, ip), now);
    FailedCounts(cur.tables, ip, now, counted);
    Extended(s, clock, moments, timeout, ordered, cur, now, begin);
    more, end := moments + [begin], Next(cur, begin, timeout);
  }

  /** One failure less than the limit, one after the other. */
  lemma Singles(s: Server, clock: int, moments: seq<Moment>, timeout: int, ordered: bool, start: Server, now: int,
                ip: string) returns (more: seq<Moment>, end: Server)
    requires Leads(s, clock, moments, timeout, ordered, start, now) && Burst(start, start, ip, now, 0, 0)
    requires start.workers != [] && start.workers[0] == Idle
    ensures Leads(s, clock, more, timeout, ordered, end, now) && end.workers == start.workers
    ensures Burst(start, end, ip, now, MAX_FAILURES - 1, MAX_FAILURES - 1)
  {
    hide Leads;
    hide Burst;
    more, end := moments, start;
    for k := 0 to MAX_FAILURES - 1
      invariant Leads(s, clock, more, timeout, ordered, end, now) && Burst(start, end, ip, now, k, k)
      invariant end.workers == start.workers
    {
      more, end := Begins(s, clock, more, timeout, ordered, start, end, now, 0, ip, k, k);
      more, end := Fails(s, clock, more, timeout, ordered, start, end, now, 0, ip, k, k);
      assert end.workers == start.workers;
    }
  }

  /** Then all the free workers begin before the first of them fails. */
  lemma Wave(s: Server, clock: int, moments: seq<Moment>, timeout: int, ordered: bool, start: Server, now: int,
             ip: string, free: nat) returns (more: seq<Moment>, end: Server)
    requires Leads(s, clock, moments, timeout, ordered, start, now) && Burst(start, start, ip, now, 0, 0)
    requires 1 <= free <= |start.workers| && forall w | 0 <= w < free :: start.workers[w] == Idle
    ensures Leads(s, clock, more, timeout, ordered, end, now) && end.workers == start.workers
    ensures Burst(start, end, ip, now, MAX_FAILURES - 1 + free, MAX_FAILURES - 1 + free)
  {
    hide Leads;
    hide Burst;
    more, end := Singles(s, clock, moments, timeout, ordered, start, now, ip);
    for w := 0 to free
      invariant Leads(s, clock, more, timeout, ordered, end, now) && |end.workers| == |start.workers|
      invariant Burst(start, end, ip, now, MAX_FAILURES - 1, MAX_FAILURES - 1)
      invariant forall v | 0 <= v < |end.workers| :: end.workers[v] == if v < w then Checked(ip) else start.workers[v]
    {
      more, end := Begins(s, clock, more, timeout, ordered, start, end, now, w, ip, MAX_FAILURES - 1, MAX_FAILURES - 1);
    }
    for w := 0 to free
      invariant Leads(s, clock, more, timeout, ordered, end, now) && |end.workers| == |start.workers|
      invariant Burst(start, end, ip, now, MAX_FAILURES - 1 + w, MAX_FAILURES - 1 + w)
      invariant forall v | 0 <= v < |end.workers| ::
          end.workers[v] == if w <= v < free then Checked(ip) else start.workers[v]
    {
      var k := MAX_FAILURES - 1 + w;
      more, end := Fails(s, clock, more, timeout, ordered, start, end, now, w, ip, k, k);
    }
    assert end.workers == start.workers;
  }

  /** With the readings recorded in order, the smaller bound is reached at one instant. */
  lemma OrderedReached(t: Tables, workers: nat, now: int, timeout: int, ip: string) returns (moments: seq<Moment>)
    requires ip !in t.attempts && workers >= 1
    ensures Legal(Watched(t, workers), now, moments, timeout, true)
    ensures Within(Final(Watched(t, workers), now, moments, timeout, true).taken, ip, now, now)
      == MAX_FAILURES - 1 + workers
  {
    var s, end := Watched(t, workers), Watched(t, workers);
    moments, end := Wave(s, now, [], timeout, true, s, now, ip, workers);
    assert Within(s.taken, ip, now, now) == 0;
  }

  /** All workers but the first take a reading each and are held up before they can record it. */
  lemma HeldUp(t: Tables, workers: nat, now: int, timeout: int, ip: string)
      returns (moments: seq<Moment>, end: Server)
    requires ip !in t.attempts && workers >= 1
    ensures Leads(Watched(t, workers), now, moments, timeout, false, end, now)
    ensures end.tables == t && end.recorded == [] && |end.workers| == workers && end.workers[0] == Idle
    ensures forall w | 1 <= w < workers :: end.workers[w] == Holding(ip, now)
    ensures forall from, to | now < from :: Within(end.taken, ip, from, to) == 0
  {
    hide Leads;
    hide Within;
    var s := Watched(t, workers);
    moments, end := [], s;
    assert Leads(s, now, [], timeout, false, s, now) by { NoMoment(s, now, timeout); }
    NoneWithin(ip);
    for w := 1 to workers
      invariant Leads(s, now, moments, timeout, false, end, now)
      invariant end.tables == t && end.recorded == [] && |end.workers| == workers
      invariant forall v | 0 <= v < workers :: end.workers[v] == if 1 <= v < w then Holding(ip, now) else Idle
      invariant forall from, to | now < from :: Within(end.taken, ip, from, to) == 0
    {
      var begin, read := Moment(Begin(w, ip), now), Moment(Read(w), now);
      Extended(s, now, moments, timeout, false, end, now, begin);
      var checked := Next(end, begin, timeout);
      Extended(s, now, moments + [begin], timeout, false, checked, now, read);
      moments := moments + [begin] + [read];
      forall from, to | now < from ensures Within(Next(checked, read, timeout).taken, ip, from, to) == 0 {
        Appended(checked.taken, Failure(ip, now), ip, from);
      }
      end := Next(checked, read, timeout);
    }
  }

  lemma NoMoment(s: Server, now: int, timeout: int)
    ensures Leads(s, now, [], timeout, false, s, now)
  {
  }

  lemma NoneWithin(ip: string)
    ensures forall from, to :: Within([], ip, from, to) == 0
  {
  }

  /**
   The general bound is reached: each late recording of an old reading makes the limiter believe that
   the cooldown has passed, and the failures start from one again. With two workers or more, that is
   above what recording in order allows.
   */
  lemma BoundReached(t: Tables, workers: nat, now: int, timeout: int, ip: string) returns (moments: seq<Moment>)
    requires ip !in t.attempts && workers >= 1
    ensures Legal(Watched(t, workers), now, moments, timeout, false)
    ensures Within(Final(Watched(t, workers), now, moments, timeout, false).taken, ip, now + 2, now + COOLDOWN + 1)
      == Reach(workers)
    ensures workers >= 2 ==> Reach(workers) > MAX_FAILURES - 1 + workers
  {
    var s, from, to := Watched(t, workers), now + 2, now + COOLDOWN + 1;
    var end;
    moments, end := HeldUp(t, workers, now, timeout, ip);
    moments, end := FirstWave(s, now, moments, timeout, end, from, to, ip);
    for c := 1 to workers
      invariant Leads(s, now, moments, timeout, false, end, to) && |end.workers| == workers
      invariant forall w | 0 <= w < workers :: end.workers[w] == if w < c then Idle else Holding(ip, now)
      invariant ReadBy(end.recorded, ip, to) && Within(end.taken, ip, from, to) == Reach(c)
    {
      moments, end := NextWave(s, now, moments, timeout, end, now, from, to, ip, c);
    }
    if workers >= 2 {
      ReachAbove(workers);
    }
  }

  lemma {:induction false} ReachAbove(n: nat)
    requires n >= 2
    ensures Reach(n) > MAX_FAILURES - 1 + n
  {
    assert Reach(n) == Reach(n - 1) + MAX_FAILURES - 1 + n;
    ReachGrows(1, n - 1);
    assert Reach(1) == Reach(0) + MAX_FAILURES;
  }

  lemma FirstWave(s: Server, clock: int, moments: seq<Moment>, timeout: int, cur: Server, from: int, to: int,
                  ip: string) returns (more: seq<Moment>, end: Server)
    requires Leads(s, clock, moments, timeout, false, cur, clock) && clock < from < to
    requires ip !in cur.tables.attempts && cur.recorded == [] && cur.workers != [] && cur.workers[0] == Idle
    requires Within(cur.taken, ip, from, to) == 0
    ensures Leads(s, clock, more, timeout, false, end, to) && end.workers == cur.workers
    ensures ReadBy(end.recorded, ip, to) && Within(end.taken, ip, from, to) == Reach(1)
  {
    assert Leads(s, clock, moments, timeout, false, cur, from);
    hide Leads;
    more, end := Wave(s, clock, moments, timeout, false, cur, from, ip, 1);
    assert Reach(1) == Reach(0) + MAX_FAILURES;
    Later(s, clock, more, timeout, end, from, to);
  }

  lemma Later(s: Server, clock: int, moments: seq<Moment>, timeout: int, end: Server, now: int, later: int)
    requires Leads(s, clock, moments, timeout, false, end, now) && now <= later
    ensures Leads(s, clock, moments, timeout, false, end, later)
  {
  }

  /** One more reading from before the window is recorded, and its worker joins the others. */
  lemma NextWave(s: Server, clock: int, moments: seq<Moment>, timeout: int, cur: Server, read: int, from: int, to: int,
                 ip: string, c: nat) returns (more: seq<Moment>, end: Server)
    requires Leads(s, clock, moments, timeout, false, cur, to) && read < from <= to && to - read > COOLDOWN
    requires c < |cur.workers| && cur.workers[c] == Holding(ip, read)
    requires forall w | 0 <= w < c :: cur.workers[w] == Idle
    requires ReadBy(cur.recorded, ip, to) && Within(cur.taken, ip, from, to) == Reach(c)
    ensures Leads(s, clock, more, timeout, false, end, to) && end.workers == cur.workers[c := Idle]
    ensures ReadBy(end.recorded, ip, to) && Within(end.taken, ip, from, to) == Reach(c + 1)
  {
    hide Leads;
    var record := Moment(Record(c), to);
    Extended(s, clock, moments, timeout, false, cur, to, record);
    var start := Next(cur, record, timeout);
    more, end := Wave(s, clock, moments + [record], timeout, false, start, to, ip, c + 1);
  }
}
