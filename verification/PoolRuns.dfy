/** Runs of the thread pool: any number of workers, one thread that adds jobs and one that may
    wait for them or destroy the pool, interleaved one critical section at a time. */
module PoolRuns {
  import opened PoolSections

  /** Entering: about to take the mutex, or woken up; Asleep: waiting on `work_cond`. */
  datatype Worker = Entering | Asleep | Running(job: Job) | Exited

  /** Checking: about to test the loop condition of tpool_wait; Sleeping: waiting on
      `working_cond`; Done: tpool_destroy has returned from its wait. */
  datatype Waiter = Idle | Checking | Sleeping | Done

  datatype State = State(
    pool: Shared,
    workers: seq<Worker>,
    waiter: Waiter,
    added: nat,
    started: seq<Job>,
    finished: seq<Job>,
    discarded: seq<Job>)

  datatype Event =
    | AddJob
    | EnterWorker(worker: nat)
    | FinishJob(worker: nat)
    | CheckWait
    | CallWait
    | CallDestroy
    | WakeWorker(worker: nat)   // a wake-up nobody asked for, which both loops allow
    | WakeWaiter

  /** A step that no other thread has to ask for and that is not a stray wake-up. */
  predicate Effective(e: Event) { e.EnterWorker? || e.FinishJob? || e.CheckWait? }

  predicate Stray(e: Event) { e.WakeWorker? || e.WakeWaiter? }

  function Woken(w: Worker): Worker { if w.Asleep? then Entering else w }

  /** pthread_cond_broadcast on `work_cond` */
  function Broadcast(workers: seq<Worker>): (r: seq<Worker>)
    ensures |r| == |workers| && forall i :: 0 <= i < |r| ==> r[i] == Woken(workers[i])
  {
    seq(|workers|, i requires 0 <= i < |workers| => Woken(workers[i]))
  }

  /** pthread_cond_signal on `working_cond`, on which at most one thread waits */
  function Signalled(waiter: Waiter): Waiter { if waiter.Sleeping? then Checking else waiter }

  predicate Enabled(s: State, e: Event) {
    match e
    case AddJob => !s.pool.stop
    case EnterWorker(w) => w < |s.workers| && s.workers[w].Entering?
    case FinishJob(w) => w < |s.workers| && s.workers[w].Running?
    case CheckWait => s.waiter.Checking?
    case CallWait => s.waiter.Idle?
    case CallDestroy => s.waiter.Idle? && !s.pool.stop
    case WakeWorker(w) => w < |s.workers| && s.workers[w].Asleep?
    case WakeWaiter => s.waiter.Sleeping?
  }

  function Entered(s: State, w: nat): State
    requires w < |s.workers|
  {
    match Enter(s.pool)
    case (Sleep, p) => s.(pool := p, workers := s.workers[w := Asleep])
    case (Leave, p) => s.(pool := p, workers := s.workers[w := Exited], waiter := Signalled(s.waiter))
    case (Take(job), p) => s.(pool := p, workers := s.workers[w := Running(job)], started := s.started + [job])
  }

  function Finished(s: State, w: nat): State
    requires w < |s.workers| && s.workers[w].Running?
  {
    var (signal, p) := Finish(s.pool);
    s.(pool := p, workers := s.workers[w := Entering], finished := s.finished + [s.workers[w].job],
       waiter := if signal then Signalled(s.waiter) else s.waiter)
  }

  function Checked(s: State): State {
    s.(waiter := if MustWait(s.pool) then Sleeping else if s.pool.stop then Done else Idle)
  }

  function Step(s: State, e: Event): State
    requires Enabled(s, e)
  {
    match e
    case AddJob => s.(pool := Add(s.pool, s.added), added := s.added + 1, workers := Broadcast(s.workers))
    case EnterWorker(w) => Entered(s, w)
    case FinishJob(w) => Finished(s, w)
    case CheckWait => Checked(s)
    case CallWait => s.(waiter := Checking)
    case CallDestroy =>
      s.(pool := Stop(s.pool), discarded := s.discarded + s.pool.queue,
         workers := Broadcast(s.workers), waiter := Checking)
    case WakeWorker(w) => s.(workers := s.workers[w := Entering])
    case WakeWaiter => s.(waiter := Checking)
  }

  /** A pool tpool_create has just returned, with all its threads started. */
  function Created(num: nat): State {
    var n := if num == 0 then 2 else num;
    State(Shared([], 0, n, false), seq(n, _ => Entering), Idle, 0, [], [], [])
  }

  predicate Runs(s: State, events: seq<Event>)
    decreases |events|
  {
    events == [] || (Enabled(s, events[0]) && Runs(Step(s, events[0]), events[1..]))
  }

  function After(s: State, events: seq<Event>): State
    requires Runs(s, events)
    decreases |events|
  {
    if events == [] then s else After(Step(s, events[0]), events[1..])
  }

  // ----- what is counted over the workers -----

  /** Busy and Live are what the two counters count; Rank is the number of sections a worker
      still has to go through before it sleeps or exits. */
  datatype Score = Busy | Live | Rank

  function Points(score: Score, w: Worker): nat {
    match score
    case Busy => if w.Running? then 1 else 0
    case Live => if w.Exited? then 0 else 1
    case Rank => if w.Running? then 2 else if w.Entering? then 1 else 0
  }

  function Total(score: Score, workers: seq<Worker>): nat
    decreases |workers|
  {
    if workers == [] then 0 else Points(score, workers[0]) + Total(score, workers[1..])
  }

  function Jobs(w: Worker): multiset<Job> { if w.Running? then multiset{w.job} else multiset{} }

  function RunningJobs(workers: seq<Worker>): multiset<Job>
    decreases |workers|
  {
    if workers == [] then multiset{} else Jobs(workers[0]) + RunningJobs(workers[1..])
  }

  lemma {:induction false} TotalUpdate(score: Score, workers: seq<Worker>, i: nat, w: Worker)
    requires i < |workers|
    ensures Total(score, workers[i := w]) == Total(score, workers) - Points(score, workers[i]) + Points(score, w)
    decreases |workers|
  {
    if i == 0 {
      assert workers[0 := w][1..] == workers[1..];
    } else {
      assert workers[i := w][1..] == workers[1..][i - 1 := w];
      TotalUpdate(score, workers[1..], i - 1, w);
    }
  }

  lemma Besides<T>(m: multiset<T>, a: multiset<T>, b: multiset<T>, c: multiset<T>, d: multiset<T>)
    requires a + b == c + d
    ensures (m + a) + b == (m + c) + d
  {
    assert (m + a) + b == m + (a + b);
    assert (m + c) + d == m + (c + d);
  }

  lemma {:induction false} JobsUpdate(workers: seq<Worker>, i: nat, w: Worker)
    requires i < |workers|
    ensures RunningJobs(workers[i := w]) + Jobs(workers[i]) == RunningJobs(workers) + Jobs(w)
    decreases |workers|
  {
    hide Jobs;
    if i == 0 {
      assert workers[0 := w][1..] == workers[1..];
      Besides(RunningJobs(workers[1..]), Jobs(w), Jobs(workers[0]), Jobs(workers[0]), Jobs(w));
    } else {
      assert workers[i := w][1..] == workers[1..][i - 1 := w];
      JobsUpdate(workers[1..], i - 1, w);
      Besides(Jobs(workers[0]), RunningJobs(workers[i := w][1..]), Jobs(workers[i]), RunningJobs(workers[1..]),
              Jobs(w));
    }
  }

  lemma {:induction false} BroadcastKeeps(workers: seq<Worker>)
    ensures Total(Busy, Broadcast(workers)) == Total(Busy, workers)
    ensures Total(Live, Broadcast(workers)) == Total(Live, workers)
    ensures RunningJobs(Broadcast(workers)) == RunningJobs(workers)
    decreases |workers|
  {
    if workers == [] {
      assert Broadcast(workers) == [];
    } else {
      assert Broadcast(workers)[1..] == Broadcast(workers[1..]);
      BroadcastKeeps(workers[1..]);
    }
  }

  /** A total is zero exactly when every score is. */
  lemma {:induction false} TotalZero(score: Score, workers: seq<Worker>)
    ensures Total(score, workers) == 0 <==> forall i :: 0 <= i < |workers| ==> Points(score, workers[i]) == 0
    decreases |workers|
  {
    if workers != [] {
      TotalZero(score, workers[1..]);
      assert forall i :: 0 < i < |workers| ==> workers[i] == workers[1..][i - 1];
      assert forall i :: 0 <= i < |workers| - 1 ==> workers[1..][i] == workers[i + 1];
    }
  }

  lemma {:induction false} NoJobs(workers: seq<Worker>)
    requires Total(Busy, workers) == 0
    ensures RunningJobs(workers) == multiset{}
    decreases |workers|
  {
    if workers != [] {
      NoJobs(workers[1..]);
    }
  }

  // ----- the invariant -----

  /** The jobs numbered from `a` up to `b`. */
  function Numbers(a: nat, b: nat): (r: seq<Job>)
    requires a <= b
    ensures |r| == b - a && forall i :: 0 <= i < |r| ==> r[i] == a + i
  {
    seq(b - a, i requires 0 <= i < b - a => a + i)
  }

  /** Both counters say what they are meant to. */
  predicate Counted(s: State) {
    && s.pool.working == Total(Busy, s.workers)
    && s.pool.threads == Total(Live, s.workers)
    && |s.workers| > 0
  }

  /** No wake-up is lost: a sleeper still has to sleep. */
  predicate SleepersMustSleep(s: State) {
    && (forall i :: 0 <= i < |s.workers| && s.workers[i].Asleep? ==> s.pool.queue == [] && !s.pool.stop)
    && (s.waiter.Sleeping? ==> MustWait(s.pool))
  }

  predicate Phases(s: State) {
    && (s.pool.stop ==> s.pool.queue == [] && !s.waiter.Idle?)
    && (!s.pool.stop ==> !s.waiter.Done? && s.discarded == [])
    && (forall i :: 0 <= i < |s.workers| && s.workers[i].Exited? ==> s.pool.stop)
    && (s.waiter.Done? ==> s.pool.threads == 0)
  }

  /** Jobs are started in the order added, and what is queued or discarded is the rest. */
  predicate InOrder(s: State) {
    && |s.started| <= s.added
    && s.started == Numbers(0, |s.started|)
    && s.pool.queue + s.discarded == Numbers(|s.started|, s.added)
  }

  /** A started job is running or finished, counting multiplicity. */
  predicate Conserved(s: State) {
    multiset(s.started) == RunningJobs(s.workers) + multiset(s.finished)
  }

  predicate Inv(s: State) {
    Counted(s) && SleepersMustSleep(s) && Phases(s) && InOrder(s) && Conserved(s)
  }

  lemma {:induction false} FreshWorkers(n: nat)
    ensures var ws := seq(n, _ => Entering);
            Total(Busy, ws) == 0 && Total(Live, ws) == n && RunningJobs(ws) == multiset{}
  {
    if n > 0 {
      FreshWorkers(n - 1);
      assert seq(n, _ => Entering)[1..] == seq(n - 1, _ => Entering);
    }
  }

  lemma CreatedInv(num: nat)
    ensures Inv(Created(num))
  {
    FreshWorkers(if num == 0 then 2 else num);
  }

  lemma CountedStep(s: State, e: Event)
    requires Inv(s) && Enabled(s, e)
    ensures Counted(Step(s, e))
  {
    hide Total, RunningJobs, InOrder, Conserved, SleepersMustSleep;
    BroadcastKeeps(s.workers);
    if e.EnterWorker? || e.FinishJob? || e.WakeWorker? {
      var w := Step(s, e).workers[e.worker];
      TotalUpdate(Busy, s.workers, e.worker, w);
      TotalUpdate(Live, s.workers, e.worker, w);
    }
  }

  lemma SleepersStep(s: State, e: Event)
    requires Inv(s) && Enabled(s, e)
    ensures SleepersMustSleep(Step(s, e))
  {
    hide Total, InOrder, Conserved;
    CountedStep(s, e);
  }

  /** The front of what is left goes to what is started. */
  lemma Dequeued(started: seq<Job>, queue: seq<Job>, discarded: seq<Job>, added: nat)
    requires |started| <= added && started == Numbers(0, |started|) && queue != []
    requires queue + discarded == Numbers(|started|, added)
    ensures |started| < added
    ensures started + [queue[0]] == Numbers(0, |started| + 1)
    ensures queue[1..] + discarded == Numbers(|started| + 1, added)
  {
    var left := Numbers(|started|, added);
    assert queue[0] == (queue + discarded)[0] == left[0] == |started|;
    assert queue[1..] + discarded == left[1..];
  }

  lemma Enqueued(first: nat, queue: seq<Job>, added: nat)
    requires first <= added && queue == Numbers(first, added)
    ensures queue + [added] == Numbers(first, added + 1)
  {}

  lemma OrderStep(s: State, e: Event)
    requires Inv(s) && Enabled(s, e)
    ensures InOrder(Step(s, e))
  {
    hide Total, RunningJobs, Broadcast, Numbers, Counted, SleepersMustSleep, Conserved;
    match e
    case AddJob =>
      assert s.pool.queue + [] == s.pool.queue;
      Enqueued(|s.started|, s.pool.queue, s.added);
      var queue := s.pool.queue + [s.added];
      assert queue + [] == queue;
    case EnterWorker(_) =>
      if s.pool.queue != [] && !s.pool.stop {
        Dequeued(s.started, s.pool.queue, s.discarded, s.added);
      }
    case CallDestroy =>
      assert s.discarded == [] && [] + (s.discarded + s.pool.queue) == s.pool.queue + s.discarded;
    case _ =>
  }

  /** What one worker's step adds to the started and finished jobs. */
  lemma ConservedMove(s: State, t: State, w: nat)
    requires Conserved(s) && w < |s.workers| == |t.workers| && t.workers == s.workers[w := t.workers[w]]
    requires multiset(t.started) == multiset(s.started) + Jobs(t.workers[w])
    requires multiset(t.finished) == multiset(s.finished) + Jobs(s.workers[w])
    ensures Conserved(t)
  {
    hide RunningJobs, Jobs;
    JobsUpdate(s.workers, w, t.workers[w]);
    var before, after := Jobs(s.workers[w]), Jobs(t.workers[w]);
    var old', new' := RunningJobs(s.workers), RunningJobs(t.workers);
    calc {
      new' + multiset(t.finished);
      (new' + before) + multiset(s.finished);
      (old' + after) + multiset(s.finished);
      (old' + multiset(s.finished)) + after;
      multiset(t.started);
    }
  }

  lemma ConservedStep(s: State, e: Event)
    requires Inv(s) && Enabled(s, e)
    ensures Conserved(Step(s, e))
  {
    hide Total, RunningJobs, InOrder, SleepersMustSleep, Counted, Phases, Broadcast;
    if e.EnterWorker? || e.FinishJob? || e.WakeWorker? {
      ConservedMove(s, Step(s, e), e.worker);
    } else {
      BroadcastKeeps(s.workers);
    }
  }

  lemma PhasesStep(s: State, e: Event)
    requires Inv(s) && Enabled(s, e)
    ensures Phases(Step(s, e))
  {
    hide Total, RunningJobs;
    CountedStep(s, e);
    if s.waiter.Done? {
      assert s.pool.threads == 0;
      TotalZero(Live, s.workers);
    }
  }

  lemma InvStep(s: State, e: Event)
    requires Inv(s) && Enabled(s, e)
    ensures Inv(Step(s, e))
  {
    hide Total, RunningJobs, Step;
    CountedStep(s, e);
    SleepersStep(s, e);
    OrderStep(s, e);
    ConservedStep(s, e);
    PhasesStep(s, e);
  }

  lemma {:induction false} InvAfter(s: State, events: seq<Event>)
    requires Inv(s) && Runs(s, events)
    ensures Inv(After(s, events))
    decreases |events|
  {
    hide Inv, Step;
    if events != [] {
      InvStep(s, events[0]);
      InvAfter(Step(s, events[0]), events[1..]);
    }
  }

  // ----- what the runs promise -----

  predicate AllIn(workers: seq<Worker>, state: Worker) { forall i :: 0 <= i < |workers| ==> workers[i] == state }

  predicate Resting(workers: seq<Worker>) { forall i :: 0 <= i < |workers| ==> !workers[i].Running? }

  lemma {:induction false} NumbersOnce(n: nat, job: Job)
    ensures multiset(Numbers(0, n))[job] == if job < n then 1 else 0
  {
    if n > 0 {
      NumbersOnce(n - 1, job);
      assert Numbers(0, n) == Numbers(0, n - 1) + [n - 1];
    }
  }

  lemma Whereabouts(s: State)
    requires InOrder(s) && Conserved(s)
    ensures multiset(Numbers(0, s.added))
         == multiset(s.pool.queue) + RunningJobs(s.workers) + multiset(s.finished) + multiset(s.discarded)
  {
    hide RunningJobs;
    assert Numbers(0, s.added) == s.started + (s.pool.queue + s.discarded);
  }

  /** In every run, jobs are started in the order added, each at most once, and every job added
      is in exactly one place: queued, running on one worker, finished once, or discarded. */
  lemma OneFate(num: nat, events: seq<Event>, job: Job)
    requires Runs(Created(num), events)
    ensures var s := After(Created(num), events);
            && s.started == Numbers(0, |s.started|)
            && multiset(s.pool.queue)[job] + RunningJobs(s.workers)[job] + multiset(s.finished)[job]
               + multiset(s.discarded)[job] == if job < s.added then 1 else 0
  {
    hide Created, Runs, After, RunningJobs, Numbers;
    CreatedInv(num);
    InvAfter(Created(num), events);
    var s := After(Created(num), events);
    Whereabouts(s);
    NumbersOnce(s.added, job);
  }

  /** What has been started, finished or discarded stays so. */
  lemma {:induction false} LogsGrow(s: State, events: seq<Event>)
    requires Runs(s, events)
    ensures var t := After(s, events);
            s.started <= t.started && s.finished <= t.finished && s.discarded <= t.discarded && s.added <= t.added
    decreases |events|
  {
    hide Broadcast;
    if events != [] {
      LogsGrow(Step(s, events[0]), events[1..]);
    }
  }

  /** In every run, whoever sleeps still has to: a worker asleep on `work_cond` has no job to take
      and no stop to obey, a thread asleep in tpool_wait has something to wait for. And the two
      counters count the busy and the live workers. */
  lemma NoWakeupLost(num: nat, events: seq<Event>)
    requires Runs(Created(num), events)
    ensures var s := After(Created(num), events);
            && (forall i :: 0 <= i < |s.workers| && s.workers[i].Asleep? ==> s.pool.queue == [] && !s.pool.stop)
            && (s.waiter.Sleeping? ==> MustWait(s.pool))
            && s.pool.working == Total(Busy, s.workers)
            && s.pool.threads == Total(Live, s.workers)
  {
    hide Created, Runs, After, RunningJobs, Numbers, Total;
    CreatedInv(num);
    InvAfter(Created(num), events);
  }

  /** In every run, tpool_wait goes on past its loop exactly when nothing is left to wait for:
      before the stop, every job added has finished; after it, every worker has gone and every
      job has finished or been discarded. */
  lemma WaitReturns(num: nat, events: seq<Event>)
    requires Runs(Created(num), events)
    requires After(Created(num), events).waiter.Checking?
    ensures var s := After(Created(num), events);
            var t := Step(s, CheckWait);
            var done := if s.pool.stop then AllIn(s.workers, Exited) else s.pool.queue == [] && Resting(s.workers);
            && (t.waiter.Sleeping? <==> !done)
            && (done ==> multiset(s.finished) + multiset(s.discarded) == multiset(Numbers(0, s.added)))
            && (done && !s.pool.stop ==> s.discarded == [])
  {
    hide Created, Runs, After, RunningJobs, Numbers, Total;
    CreatedInv(num);
    InvAfter(Created(num), events);
    var s := After(Created(num), events);
    TotalZero(Busy, s.workers);
    TotalZero(Live, s.workers);
    Whereabouts(s);
    if Resting(s.workers) {
      NoJobs(s.workers);
    }
  }

  ghost predicate Stuck(s: State) { forall e :: Effective(e) ==> !Enabled(s, e) }

  /** Some step of the pool's own threads is enabled unless there is nothing left to do: so no
      wake-up has been lost, whatever the run so far. */
  lemma StuckOnlyAtRest(num: nat, events: seq<Event>)
    requires Runs(Created(num), events)
    ensures var s := After(Created(num), events);
            Stuck(s) <==> if s.pool.stop then s.waiter.Done? && AllIn(s.workers, Exited)
                          else s.waiter.Idle? && s.pool.queue == [] && AllIn(s.workers, Asleep)
  {
    hide Created, Runs, After, RunningJobs, Numbers, Total;
    CreatedInv(num);
    InvAfter(Created(num), events);
    var s := After(Created(num), events);
    TotalZero(Busy, s.workers);
    TotalZero(Live, s.workers);
    if Stuck(s) {
      assert !Enabled(s, CheckWait);
      forall i | 0 <= i < |s.workers| ensures s.workers[i] == if s.pool.stop then Exited else Asleep {
        assert !Enabled(s, EnterWorker(i)) && !Enabled(s, FinishJob(i));
      }
      assert s.workers[0] == if s.pool.stop then Exited else Asleep;
    }
  }

  /** How many steps of its own threads the pool can still take. */
  function Measure(s: State): nat {
    2 * (2 * |s.pool.queue| + Total(Rank, s.workers)) + if s.waiter.Checking? then 1 else 0
  }

  function Strays(events: seq<Event>): nat
    decreases |events|
  {
    if events == [] then 0 else (if Stray(events[0]) then 1 else 0) + Strays(events[1..])
  }

  lemma MeasureFalls(s: State, e: Event)
    requires Inv(s) && Enabled(s, e) && (Effective(e) || Stray(e))
    ensures Measure(Step(s, e)) < Measure(s) + if Stray(e) then 3 else 0
  {
    hide Total, RunningJobs;
    if e.EnterWorker? || e.FinishJob? || e.WakeWorker? {
      TotalUpdate(Rank, s.workers, e.worker, Step(s, e).workers[e.worker]);
    }
  }

  /** With no new job and no new call, the pool's threads take at most that many steps, three
      more for each stray wake-up. */
  lemma {:induction false} Settles(s: State, events: seq<Event>)
    requires Inv(s) && Runs(s, events) && forall i :: 0 <= i < |events| ==> Effective(events[i]) || Stray(events[i])
    ensures |events| + Measure(After(s, events)) <= Measure(s) + 3 * Strays(events)
    decreases |events|
  {
    hide Inv, Step, Measure;
    if events != [] {
      InvStep(s, events[0]);
      MeasureFalls(s, events[0]);
      Settles(Step(s, events[0]), events[1..]);
    }
  }

  lemma {:induction false} StopIsFinal(s: State, events: seq<Event>)
    requires Inv(s) && s.pool.stop && Runs(s, events)
    ensures After(s, events).pool.stop && After(s, events).added == s.added && After(s, events).discarded == s.discarded
    ensures forall i :: 0 <= i < |events| ==> Effective(events[i]) || Stray(events[i])
    decreases |events|
  {
    hide Total, RunningJobs, Numbers;
    if events != [] {
      InvStep(s, events[0]);
      StopIsFinal(Step(s, events[0]), events[1..]);
    }
  }

  lemma {:induction false} AfterConcat(s: State, a: seq<Event>, b: seq<Event>)
    requires Runs(s, a) && Runs(After(s, a), b)
    ensures Runs(s, a + b) && After(s, a + b) == After(After(s, a), b)
    decreases |a|
  {
    if a == [] {
      assert a + b == b;
    } else {
      assert (a + b)[1..] == a[1..] + b;
      AfterConcat(Step(s, a[0]), a[1..], b);
    }
  }

  /** Once tpool_destroy has raised the stop flag, every run is finite as long as stray wake-ups
      are, and one that cannot go on has let every worker out and tpool_destroy return. */
  lemma DestroyReturns(num: nat, before: seq<Event>, after: seq<Event>)
    requires Runs(Created(num), before) && After(Created(num), before).pool.stop
    requires Runs(After(Created(num), before), after)
    ensures var s, t := After(Created(num), before), After(After(Created(num), before), after);
            && |after| <= Measure(s) + 3 * Strays(after)
            && (Stuck(t) <==> t.waiter.Done? && AllIn(t.workers, Exited))
            && (t.waiter.Done? ==> AllIn(t.workers, Exited))
  {
    hide Created, Total, RunningJobs, Numbers, Measure, Runs, After, Stuck;
    CreatedInv(num);
    InvAfter(Created(num), before);
    var s := After(Created(num), before);
    StopIsFinal(s, after);
    Settles(s, after);
    AfterConcat(Created(num), before, after);
    StuckOnlyAtRest(num, before + after);
    InvAfter(s, after);
    TotalZero(Live, After(s, after).workers);
  }

  /** A call of tpool_destroy that comes back leaves every job that was added finished, except the
      ones that were queued when it was called; those are never started. */
  lemma DestroyDiscards(num: nat, before: seq<Event>, after: seq<Event>, job: Job)
    requires Runs(Created(num), before) && Enabled(After(Created(num), before), CallDestroy)
    requires var s := Step(After(Created(num), before), CallDestroy); Runs(s, after) && After(s, after).waiter.Done?
    ensures var s := After(Created(num), before);
            var t := After(Step(s, CallDestroy), after);
            job < s.added ==>
                (job in t.finished <==> job !in s.pool.queue) && (job in s.pool.queue ==> job !in t.started)
  {
    hide Created, Runs, After, RunningJobs, Numbers, Total, Step;
    var s := After(Created(num), before);
    CreatedInv(num);
    InvAfter(Created(num), before);
    DestroyQueue(s);
    InvStep(s, CallDestroy);
    StopIsFinal(Step(s, CallDestroy), after);
    InvAfter(Step(s, CallDestroy), after);
    var t := After(Step(s, CallDestroy), after);
    TotalZero(Live, t.workers);
    NoneRuns(t.workers);
    Whereabouts(t);
    NumbersOnce(t.added, job);
  }

  lemma DestroyQueue(s: State)
    requires Inv(s) && Enabled(s, CallDestroy)
    ensures var t := Step(s, CallDestroy);
            t.pool.stop && t.discarded == s.pool.queue && t.added == s.added
  {
    hide Total, RunningJobs, Numbers;
  }

  lemma NoneRuns(workers: seq<Worker>)
    requires forall i :: 0 <= i < |workers| ==> Points(Live, workers[i]) == 0
    ensures RunningJobs(workers) == multiset{}
  {
    TotalZero(Busy, workers);
    NoJobs(workers);
  }

  /** For instance: a job queued when the pool is destroyed is gone when tpool_destroy returns. */
  lemma JobDiscarded()
    ensures var events := [AddJob, CallDestroy, EnterWorker(0), CheckWait];
            && Runs(Created(1), events)
            && var t := After(Created(1), events);
               t.waiter.Done? && t.added == 1 && t.started == t.finished == [] && t.discarded == [0]
  {
    var s0 := Created(1);
    var s1 := Step(s0, AddJob);
    var s2 := Step(s1, CallDestroy);
    assert s2.workers == [Entering];
    var s3 := Step(s2, EnterWorker(0));
    var s4 := Step(s3, CheckWait);
    OneStep(s3, CheckWait, []);
    OneStep(s2, EnterWorker(0), [CheckWait]);
    OneStep(s1, CallDestroy, [EnterWorker(0), CheckWait]);
    OneStep(s0, AddJob, [CallDestroy, EnterWorker(0), CheckWait]);
    assert After(s4, []) == s4;
  }

  lemma OneStep(s: State, e: Event, events: seq<Event>)
    requires Enabled(s, e) && Runs(Step(s, e), events)
    ensures Runs(s, [e] + events) && After(s, [e] + events) == After(Step(s, e), events)
  {
    hide Step, Enabled;
    assert ([e] + events)[1..] == events;
  }
}
