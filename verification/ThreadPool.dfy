/**
 The worker pool that runs every HTTP request: a mutex, a condition variable, a bounded queue
 of jobs and a fixed set of workers.

 The class `JobQueue` is the data the mutex protects, with one method for each critical section.
 The state machine below it interleaves those sections with everything that happens outside the
 mutex: both notifications, spurious wakeups and the execution of a job.
 */
module ThreadPool {

  datatype Job = Job(id: nat)

  // ---------- The data behind the mutex ----------

  /** What a worker does once it holds the mutex and has evaluated the wait predicate. */
  datatype Outcome = Sleep | Leave | Take(job: Job)

  datatype Queue = Queue(jobs: seq<Job>, shutdown: bool, max: nat)

  function Enqueued(q: Queue, job: Job): (r: (Queue, bool))
  {
    if q.max > 0 && |q.jobs| >= q.max then (q, false) else (q.(jobs := q.jobs + [job]), true)
  }

  function Served(q: Queue): (r: (Queue, Outcome))
  {
    if q.jobs == [] then (q, if q.shutdown then Leave else Sleep)
    else (q.(jobs := q.jobs[1..]), Take(q.jobs[0]))
  }

  class JobQueue {
    var jobs: seq<Job>
    var shutdown: bool
    const max: nat

    ghost function View(): Queue
      reads this
    {
      Queue(jobs, shutdown, max)
    }

    constructor (max: nat)
      ensures View() == Queue([], false, max)
    {
      this.max := max;
      jobs, shutdown := [], false;
    }

    method Enqueue(fn: Job) returns (accepted: bool)
      modifies this
      ensures accepted <==> max == 0 || |old(jobs)| < max
      ensures jobs == (if accepted then old(jobs) + [fn] else old(jobs)) && shutdown == old(shutdown)
      ensures (View(), accepted) == Enqueued(old(View()), fn)
    {
      if max > 0 && |jobs| >= max {
        return false;
      }
      jobs := jobs + [fn];
      return true;
    }

    method Shutdown()
      modifies this`shutdown
      ensures shutdown && View() == old(View()).(shutdown := true)
    {
      shutdown := true;
    }

    /** One pass of a worker through its critical section, from the wait predicate to the unlock. */
    method Serve() returns (outcome: Outcome)
      modifies this`jobs
      ensures old(jobs) == [] ==> outcome == (if shutdown then Leave else Sleep) && jobs == []
      ensures old(jobs) != [] ==> outcome.Take? && old(jobs) == [outcome.job] + jobs
      ensures (View(), outcome) == Served(old(View()))
    {
      if !(jobs != [] || shutdown) {
        return Sleep;
      }
      if shutdown && jobs == [] {
        return Leave;
      }
      outcome := Take(jobs[0]);
      jobs := jobs[1..];
    }
  }

  // ---------- The protocol ----------

  /** A worker is about to lock the mutex, asleep in the wait, running a job, or gone. */
  datatype Worker = AtLock | Asleep | Running(job: Job) | Left

  /**
   `one` counts enqueuers that have released the mutex but not yet called notify_one; `all` says
   that shutdown has released it but not yet called notify_all. The last four fields record the
   history: jobs accepted, taken and completed, and whether a job was accepted after the last
   worker had left.
   */
  datatype Pool = Pool(queue: Queue, workers: seq<Worker>, one: nat, all: bool,
                       accepted: seq<Job>, taken: seq<Job>, done: seq<Job>, stranded: bool)

  datatype Event =
    | Enqueue(job: Job)
    | NotifyOne(w: nat)  // the sleeper woken, if there is one
    | Shutdown
    | NotifyAll
    | Serve(w: nat)
    | Spurious(w: nat)
    | Finish(w: nat)

  predicate AllLeft(p: Pool)
  {
    forall i | 0 <= i < |p.workers| :: p.workers[i] == Left
  }

  function Initial(n: nat, max: nat): Pool
  {
    Pool(Queue([], false, max), seq(n, _ => AtLock), 0, false, [], [], [], false)
  }

  predicate Enabled(p: Pool, e: Event)
  {
    match e
    case Enqueue(_) => true
    case NotifyOne(w) => p.one > 0 && (Asleep in p.workers ==> w < |p.workers| && p.workers[w] == Asleep)
    case Shutdown => !p.queue.shutdown
    case NotifyAll => p.all
    case Serve(w) => w < |p.workers| && p.workers[w] == AtLock
    case Spurious(w) => w < |p.workers| && p.workers[w] == Asleep
    case Finish(w) => w < |p.workers| && p.workers[w].Running?
  }

  function Apply(p: Pool, e: Event): Pool
    requires Enabled(p, e)
  {
    match e
    case Enqueue(job) =>
      var (q, ok) := Enqueued(p.queue, job);
      if !ok then p
      else p.(queue := q, one := p.one + 1, accepted := p.accepted + [job], stranded := p.stranded || AllLeft(p))
    case NotifyOne(w) =>
      p.(one := p.one - 1, workers := if Asleep in p.workers then p.workers[w := AtLock] else p.workers)
    case Shutdown =>
      p.(queue := p.queue.(shutdown := true), all := true)
    case NotifyAll =>
      p.(all := false, workers := WakeAll(p.workers))
    case Serve(w) =>
      var (q, outcome) := Served(p.queue);
      (match outcome
       case Sleep => p.(workers := p.workers[w := Asleep])
       case Leave => p.(workers := p.workers[w := Left])
       case Take(job) => p.(queue := q, workers := p.workers[w := Running(job)], taken := p.taken + [job]))
    case Spurious(w) =>
      p.(workers := p.workers[w := AtLock])
    case Finish(w) =>
      p.(workers := p.workers[w := AtLock], done := p.done + [p.workers[w].job])
  }

  function WakeAll(ws: seq<Worker>): seq<Worker>
  {
    seq(|ws|, i requires 0 <= i < |ws| => if ws[i] == Asleep then AtLock else ws[i])
  }

  /** Every event of the run is enabled when its turn comes. */
  predicate IsRun(p: Pool, es: seq<Event>)
    decreases |es|
  {
    es == [] || (Enabled(p, es[0]) && IsRun(Apply(p, es[0]), es[1..]))
  }

  function After(p: Pool, es: seq<Event>): Pool
    requires IsRun(p, es)
    decreases |es|
  {
    if es == [] then p else After(Apply(p, es[0]), es[1..])
  }

  // ---------- What every reachable state satisfies ----------

  /** How many workers are running `job`. */
  function Runners(ws: seq<Worker>, job: Job): nat
  {
    multiset(ws)[Running(job)]
  }

  lemma {:induction false} RunnersWakeAll(ws: seq<Worker>, job: Job)
    ensures Runners(WakeAll(ws), job) == Runners(ws, job)
  {
    if ws != [] {
      var woken := WakeAll(ws);
      RunnersWakeAll(ws[1..], job);
      assert woken[1..] == WakeAll(ws[1..]);
      assert ws == [ws[0]] + ws[1..] && woken == [woken[0]] + woken[1..];
    } else {
      assert WakeAll(ws) == [];
    }
  }

  function Times(s: seq<Job>, job: Job): nat
  {
    multiset(s)[job]
  }

  /** Workers about to evaluate the wait predicate. */
  function Ready(ws: seq<Worker>): nat
  {
    multiset(ws)[AtLock]
  }

  ghost predicate InOrder(p: Pool)
  {
    && p.accepted == p.taken + p.queue.jobs
    && (p.queue.max > 0 ==> |p.queue.jobs| <= p.queue.max)
  }

  /** Every time `job` was taken, it is in the hands of one worker or has been completed. */
  ghost predicate Matched(p: Pool, job: Job)
  {
    Times(p.taken, job) == Times(p.done, job) + Runners(p.workers, job)
  }

  /** While a worker sleeps, each queued job has its own worker or notification under way. */
  ghost predicate Awake(p: Pool)
  {
    && (Asleep in p.workers ==> |p.queue.jobs| <= p.one + Ready(p.workers))
    && (p.queue.shutdown && !p.all ==> Asleep !in p.workers)
    && (p.all ==> p.queue.shutdown)
  }

  ghost predicate Orderly(p: Pool)
  {
    && p.workers != []
    && (Left in p.workers ==> p.queue.shutdown)
    && (AllLeft(p) ==> (p.queue.jobs == [] <==> !p.stranded))
    && (p.stranded ==> AllLeft(p) && p.queue.jobs != [])
  }

  ghost predicate Inv(p: Pool)
  {
    InOrder(p) && Awake(p) && Orderly(p) && forall job :: Matched(p, job)
  }

  lemma InOrderStep(p: Pool, e: Event)
    requires InOrder(p) && Enabled(p, e)
    ensures InOrder(Apply(p, e))
  {
    if e.Serve? && p.queue.jobs != [] {
      assert p.queue.jobs == [p.queue.jobs[0]] + p.queue.jobs[1..];
    }
  }

  lemma RunnersUpdate(ws: seq<Worker>, w: nat, v: Worker, job: Job)
    requires w < |ws|
    ensures Runners(ws[w := v], job)
         == Runners(ws, job) + (if v == Running(job) then 1 else 0) - (if ws[w] == Running(job) then 1 else 0)
  {
  }

  lemma CountAppend(s: seq<Job>, last: Job, job: Job)
    ensures Times(s + [last], job) == Times(s, job) + if last == job then 1 else 0
  {
  }

  lemma MatchedStep(p: Pool, e: Event, job: Job)
    requires Matched(p, job) && Enabled(p, e)
    ensures Matched(Apply(p, e), job)
  {
    hide Runners;
    hide Times;
    match e {
      case Enqueue(_) =>
      case NotifyOne(w) => if Asleep in p.workers { RunnersUpdate(p.workers, w, AtLock, job); }
      case Shutdown =>
      case NotifyAll =>
        hide WakeAll;
        RunnersWakeAll(p.workers, job);
      case Serve(w) =>
        RunnersUpdate(p.workers, w, Apply(p, e).workers[w], job);
        if p.queue.jobs != [] { CountAppend(p.taken, p.queue.jobs[0], job); }
      case Spurious(w) => RunnersUpdate(p.workers, w, AtLock, job);
      case Finish(w) =>
        RunnersUpdate(p.workers, w, AtLock, job);
        CountAppend(p.done, p.workers[w].job, job);
    }
  }

  lemma ReadyUpdate(ws: seq<Worker>, w: nat, v: Worker)
    requires w < |ws|
    ensures Ready(ws[w := v]) == Ready(ws) + (if v == AtLock then 1 else 0) - (if ws[w] == AtLock then 1 else 0)
    ensures Asleep in ws[w := v] ==> v == Asleep || Asleep in ws
    ensures ws[w] == AtLock ==> Ready(ws) >= 1
  {
    assert ws[w] in multiset(ws);
  }

  lemma NoneAsleep(ws: seq<Worker>)
    ensures Asleep !in WakeAll(ws)
  {
  }

  lemma AwakeStep(p: Pool, e: Event)
    requires Awake(p) && Enabled(p, e)
    ensures Awake(Apply(p, e))
  {
    hide Ready;
    match e {
      case Enqueue(_) =>
      case NotifyOne(w) => if Asleep in p.workers { ReadyUpdate(p.workers, w, AtLock); }
      case Shutdown =>
      case NotifyAll =>
        hide WakeAll;
        NoneAsleep(p.workers);
      case Serve(w) => ReadyUpdate(p.workers, w, Apply(p, e).workers[w]);
      case Spurious(w) => ReadyUpdate(p.workers, w, AtLock);
      case Finish(w) => ReadyUpdate(p.workers, w, AtLock);
    }
  }

  lemma OrderlyStep(p: Pool, e: Event)
    requires Orderly(p) && Enabled(p, e)
    ensures Orderly(Apply(p, e))
  {
    var p' := Apply(p, e);
    match e {
      case Enqueue(_) => assert p'.workers == p.workers;
      case NotifyOne(w) => assert Asleep in p.workers ==> p'.workers[w] == AtLock;
      case Shutdown =>
      case NotifyAll => assert forall i | 0 <= i < |p.workers| :: p'.workers[i] == Left <==> p.workers[i] == Left;
      case Serve(w) =>
        assert p.workers[w] == AtLock;
        assert p'.workers[w] == Left ==> p'.queue.jobs == [];
      case Spurious(w) => assert p'.workers[w] == AtLock;
      case Finish(w) => assert p'.workers[w] == AtLock;
    }
  }

  lemma {:induction false} InvHolds(p: Pool, es: seq<Event>)
    requires Inv(p) && IsRun(p, es)
    ensures Inv(After(p, es))
    decreases |es|
  {
    if es != [] {
      InOrderStep(p, es[0]);
      AwakeStep(p, es[0]);
      OrderlyStep(p, es[0]);
      forall job ensures Matched(Apply(p, es[0]), job) {
        MatchedStep(p, es[0], job);
      }
      InvHolds(Apply(p, es[0]), es[1..]);
    }
  }

  lemma ReachableInv(n: nat, max: nat, es: seq<Event>)
    requires n >= 1 && IsRun(Initial(n, max), es)
    ensures Inv(After(Initial(n, max), es))
  {
    var p := Initial(n, max);
    assert p.workers[0] == AtLock;
    InvHolds(p, es);
  }

  /**
   Over every interleaving, jobs leave the queue in the order they were accepted, every taken job
   is in exactly one worker's hands or has been completed, and the queue respects its bound.
   */
  lemma TakenInOrderExactlyOnce(n: nat, max: nat, es: seq<Event>)
    requires n >= 1 && IsRun(Initial(n, max), es)
    ensures var p := After(Initial(n, max), es);
      && p.accepted == p.taken + p.queue.jobs
      && (forall job :: multiset(p.taken)[job] == multiset(p.done)[job] + Runners(p.workers, job))
      && (max > 0 ==> |p.queue.jobs| <= max)
  {
    ReachableInv(n, max, es);
    MaxFixed(Initial(n, max), es);
    var p := After(Initial(n, max), es);
    forall job ensures multiset(p.taken)[job] == multiset(p.done)[job] + Runners(p.workers, job) {
      assert Matched(p, job);
    }
  }

  lemma {:induction false} MaxFixed(p: Pool, es: seq<Event>)
    requires IsRun(p, es)
    ensures After(p, es).queue.max == p.queue.max
    decreases |es|
  {
    if es != [] {
      MaxFixed(Apply(p, es[0]), es[1..]);
    }
  }

  lemma {:induction false} AfterOneMore(p: Pool, es: seq<Event>, e: Event)
    requires IsRun(p, es) && Enabled(After(p, es), e)
    ensures IsRun(p, es + [e]) && After(p, es + [e]) == Apply(After(p, es), e)
    decreases |es|
  {
    hide Enabled;
    hide Apply;
    if es == [] {
      assert [e][1..] == [] && [] + [e] == [e];
    } else {
      AfterOneMore(Apply(p, es[0]), es[1..], e);
      assert (es + [e])[1..] == es[1..] + [e];
    }
  }

  /** In every run a request is accepted exactly if there is no bound or fewer jobs than that are waiting. */
  lemma AcceptedExactlyIf(n: nat, max: nat, es: seq<Event>, job: Job)
    requires n >= 1 && IsRun(Initial(n, max), es)
    ensures var run := es + [Event.Enqueue(job)];
      && IsRun(Initial(n, max), run)
      && var p := After(Initial(n, max), es);
        After(Initial(n, max), run).accepted
        == if max == 0 || |p.accepted| - |p.taken| < max then p.accepted + [job] else p.accepted
  {
    TakenInOrderExactlyOnce(n, max, es);
    MaxFixed(Initial(n, max), es);
    AfterOneMore(Initial(n, max), es, Event.Enqueue(job));
  }

  /** The jobs of all requests, in order. */
  function Requested(es: seq<Event>): seq<Job>
  {
    if es == [] then [] else RequestedBy(es[0]) + Requested(es[1..])
  }

  function RequestedBy(e: Event): seq<Job>
  {
    match e case Enqueue(job) => [job] case _ => []
  }

  lemma UnboundedStep(p: Pool, e: Event)
    requires Enabled(p, e) && p.queue.max == 0
    ensures Apply(p, e).accepted == p.accepted + RequestedBy(e) && Apply(p, e).queue.max == 0
  {
  }

  lemma {:induction false} UnboundedFrom(p: Pool, es: seq<Event>)
    requires IsRun(p, es) && p.queue.max == 0
    ensures After(p, es).accepted == p.accepted + Requested(es)
    decreases |es|
  {
    hide Enabled;
    hide Apply;
    hide RequestedBy;
    if es != [] {
      UnboundedStep(p, es[0]);
      UnboundedFrom(Apply(p, es[0]), es[1..]);
    }
  }

  /** Without a bound, which is the default, nothing is ever refused. */
  lemma UnboundedAcceptsAll(n: nat, es: seq<Event>)
    requires IsRun(Initial(n, 0), es)
    ensures After(Initial(n, 0), es).accepted == Requested(es)
  {
    UnboundedFrom(Initial(n, 0), es);
  }

  /** How often an enqueuer has called notify_one. */
  function Notified(es: seq<Event>): nat
  {
    if es == [] then 0 else (if es[0].NotifyOne? then 1 else 0) + Notified(es[1..])
  }

  lemma {:induction false} NotificationsFrom(p: Pool, es: seq<Event>)
    requires IsRun(p, es)
    ensures After(p, es).one + Notified(es) == p.one + |After(p, es).accepted| - |p.accepted|
    decreases |es|
  {
    hide Enabled;
    hide Apply;
    if es != [] {
      NotificationStep(p, es[0]);
      NotificationsFrom(Apply(p, es[0]), es[1..]);
    }
  }

  lemma NotificationStep(p: Pool, e: Event)
    requires Enabled(p, e)
    ensures Apply(p, e).one + (if e.NotifyOne? then 1 else 0) == p.one + |Apply(p, e).accepted| - |p.accepted|
  {
  }

  /** Each accepted job brings one notification, no more, and it can always be given. */
  lemma OneNotificationEach(n: nat, max: nat, es: seq<Event>, w: nat)
    requires IsRun(Initial(n, max), es)
    ensures var p := After(Initial(n, max), es);
      && p.one + Notified(es) == |p.accepted|
      && (p.one > 0 && Asleep !in p.workers ==> Enabled(p, NotifyOne(w)))
      && (p.one > 0 && w < |p.workers| && p.workers[w] == Asleep ==> Enabled(p, NotifyOne(w)))
  {
    NotificationsFrom(Initial(n, max), es);
  }

  predicate SomeoneAwake(p: Pool)
  {
    exists i | 0 <= i < |p.workers| :: p.workers[i] == AtLock || p.workers[i].Running?
  }

  /**
   No wakeup is lost although both notifications happen outside the mutex. While anyone sleeps
   there is a worker at the lock or a notification to come for every queued job, a non-empty queue
   has someone awake or a notification to come unless everybody has left for good, and once
   notify_all has fired after shutdown nobody sleeps.
   */
  lemma NoLostWakeup(n: nat, max: nat, es: seq<Event>)
    requires n >= 1 && IsRun(Initial(n, max), es)
    ensures var p := After(Initial(n, max), es);
      && (Asleep in p.workers ==> |p.queue.jobs| <= p.one + Ready(p.workers))
      && (p.queue.jobs != [] ==> SomeoneAwake(p) || p.one > 0 || AllLeft(p))
      && (p.queue.shutdown && !p.all ==> Asleep !in p.workers)
  {
    ReachableInv(n, max, es);
    var p := After(Initial(n, max), es);
    if p.queue.jobs != [] && !SomeoneAwake(p) && !AllLeft(p) {
      var i :| 0 <= i < |p.workers| && p.workers[i] != Left;
      assert p.workers[i] == Asleep;
      assert AtLock !in p.workers;
    }
  }

  /** Once every worker has left, every accepted job has run unless one was accepted later still. */
  lemma AllRunExactlyUnlessStranded(p: Pool)
    requires Inv(p) && AllLeft(p)
    ensures (forall job :: multiset(p.accepted)[job] == multiset(p.done)[job]) <==> !p.stranded
  {
    forall job ensures multiset(p.accepted)[job] == multiset(p.done)[job] + multiset(p.queue.jobs)[job] {
      assert Matched(p, job);
      assert Running(job) !in p.workers;
    }
    if p.stranded {
      assert p.queue.jobs[0] in multiset(p.queue.jobs);
    }
  }

  /** The only worker leaves, and then a job is enqueued. */
  function LateJob(job: Job): seq<Event>
  {
    [Event.Shutdown, NotifyAll, Event.Serve(0), Event.Enqueue(job)]
  }

  /** A job that comes after the only worker has left is accepted and never runs. */
  lemma StrandedJob(job: Job, max: nat)
    ensures IsRun(Initial(1, max), LateJob(job))
    ensures var p := After(Initial(1, max), LateJob(job));
      AllLeft(p) && p.stranded && p.accepted == [job] && p.done == [] && !SomeoneAwake(p)
  {
    var es := LateJob(job);
    var p0 := Initial(1, max);
    var p1 := Apply(p0, es[0]);
    var p2 := Apply(p1, es[1]);
    var p3 := Apply(p2, es[2]);
    assert p3.workers == [Left];
    var p4 := Apply(p3, es[3]);
    OneMore(p3, es[3..]);
    OneMore(p2, es[2..]);
    OneMore(p1, es[1..]);
    OneMore(p0, es);
  }

  lemma OneMore(p: Pool, es: seq<Event>)
    requires es != [] && Enabled(p, es[0]) && IsRun(Apply(p, es[0]), es[1..])
    ensures IsRun(p, es) && After(p, es) == After(Apply(p, es[0]), es[1..])
  {
  }

  /** The accept loop's discipline: it stops enqueueing before it calls shutdown. */
  predicate NoEnqueueAfterShutdown(es: seq<Event>, down: bool)
  {
    es == [] || (!(down && es[0].Enqueue?) && NoEnqueueAfterShutdown(es[1..], down || es[0].Shutdown?))
  }

  lemma {:induction false} DisciplineStep(p: Pool, es: seq<Event>)
    requires Inv(p) && !p.stranded && IsRun(p, es) && NoEnqueueAfterShutdown(es, p.queue.shutdown)
    ensures !After(p, es).stranded
    decreases |es|
  {
    if es != [] {
      InvHolds(p, es[..1]);
      assert IsRun(p, es[..1]) && After(p, es[..1]) == Apply(p, es[0]) by {
        assert es[..1][1..] == [];
      }
      assert AllLeft(p) ==> p.workers[0] == Left;
      DisciplineStep(Apply(p, es[0]), es[1..]);
    }
  }

  /** With that discipline nothing is stranded: all workers gone means every accepted job has run. */
  lemma AllRunUnderDiscipline(n: nat, max: nat, es: seq<Event>)
    requires n >= 1 && IsRun(Initial(n, max), es) && NoEnqueueAfterShutdown(es, false)
    requires AllLeft(After(Initial(n, max), es))
    ensures var p := After(Initial(n, max), es);
      forall job :: multiset(p.accepted)[job] == multiset(p.done)[job]
  {
    ReachableInv(n, max, []);
    DisciplineStep(Initial(n, max), es);
    InvHolds(Initial(n, max), es);
    AllRunExactlyUnlessStranded(After(Initial(n, max), es));
  }

  // ---------- Shutdown terminates ----------

  function WeightOf(w: Worker): nat
  {
    match w case AtLock => 2 case Asleep => 3 case Running(_) => 3 case Left => 0
  }

  function Weight(ws: seq<Worker>): nat
  {
    if ws == [] then 0 else Weight(ws[1..]) + WeightOf(ws[0])
  }

  function Remaining(p: Pool): nat
  {
    3 * |p.queue.jobs| + Weight(p.workers) + p.one + if p.all then 1 else 0
  }

  lemma {:induction false} WeightUpdate(ws: seq<Worker>, w: nat, v: Worker)
    requires w < |ws|
    ensures Weight(ws[w := v]) + WeightOf(ws[w]) == Weight(ws) + WeightOf(v)
  {
    if w == 0 {
      assert ws[w := v][1..] == ws[1..];
    } else {
      WeightUpdate(ws[1..], w - 1, v);
      assert ws[w := v][1..] == ws[1..][w - 1 := v];
    }
  }

  lemma {:induction false} WeightWakeAll(ws: seq<Worker>)
    ensures Weight(WakeAll(ws)) <= Weight(ws)
  {
    if ws != [] {
      WeightWakeAll(ws[1..]);
      assert WakeAll(ws)[1..] == WakeAll(ws[1..]);
    }
  }

  lemma RemainingDecreases(p: Pool, e: Event)
    requires p.queue.shutdown && Enabled(p, e) && !e.Enqueue?
    ensures Apply(p, e).queue.shutdown && Remaining(Apply(p, e)) < Remaining(p)
  {
    hide Weight;
    match e {
      case NotifyOne(w) => if Asleep in p.workers { WeightUpdate(p.workers, w, AtLock); }
      case NotifyAll => WeightWakeAll(p.workers);
      case Serve(w) => WeightUpdate(p.workers, w, Apply(p, e).workers[w]);
      case Spurious(w) => WeightUpdate(p.workers, w, AtLock);
      case Finish(w) => WeightUpdate(p.workers, w, AtLock);
      case Enqueue(_) =>
      case Shutdown =>
    }
  }

  /** Nothing is left to do: only a new request or a spurious wakeup could happen. */
  ghost predicate Quiescent(p: Pool)
  {
    forall e :: Enabled(p, e) ==> e.Enqueue? || e.Spurious?
  }

  lemma QuiescentAllLeft(p: Pool)
    requires Inv(p) && p.queue.shutdown && Quiescent(p)
    ensures AllLeft(p)
  {
    assert !Enabled(p, NotifyAll);
    forall i | 0 <= i < |p.workers| ensures p.workers[i] == Left {
      assert !Enabled(p, Serve(i)) && !Enabled(p, Finish(i));
    }
  }

  lemma {:induction false} DrainingRun(p: Pool, es: seq<Event>)
    requires Inv(p) && p.queue.shutdown && IsRun(p, es)
    requires forall i | 0 <= i < |es| :: !es[i].Enqueue?
    ensures |es| <= Remaining(p)
    ensures var q := After(p, es); Inv(q) && q.queue.shutdown && q.stranded == p.stranded
    decreases |es|
  {
    if es != [] {
      RemainingDecreases(p, es[0]);
      InvHolds(p, es[..1]);
      assert After(p, es[..1]) == Apply(p, es[0]) by {
        assert es[..1][1..] == [];
      }
      DrainingRun(Apply(p, es[0]), es[1..]);
    }
  }

  /**
   After shutdown, joining the workers cannot hang: from any reachable state, a run `later` without
   new requests is bounded, and where it can go no further (not counting spurious wakeups) every
   worker has left, and every accepted job has run unless one was stranded before.
   */
  lemma ShutdownDrains(n: nat, max: nat, es: seq<Event>, later: seq<Event>)
    requires n >= 1 && IsRun(Initial(n, max), es)
    requires var p := After(Initial(n, max), es); p.queue.shutdown && IsRun(p, later)
    requires forall i | 0 <= i < |later| :: !later[i].Enqueue?
    ensures var p := After(Initial(n, max), es);
      var q := After(p, later);
      && |later| <= Remaining(p)
      && (Quiescent(q) ==>
            && AllLeft(q)
            && ((forall job :: multiset(q.accepted)[job] == multiset(q.done)[job]) <==> !p.stranded))
  {
    ReachableInv(n, max, es);
    var p := After(Initial(n, max), es);
    DrainingRun(p, later);
    var q := After(p, later);
    if Quiescent(q) {
      QuiescentAllLeft(q);
      AllRunExactlyUnlessStranded(q);
    }
  }
}
