/** What each critical section of the thread pool does to what the mutex protects, as
    functions and, on the linked queue, as methods. */
module PoolSections {
  /** A job is known by its number: the n-th one added. */
  type Job = nat

  datatype Shared = Shared(queue: seq<Job>, working: int, threads: int, stop: bool)

  datatype Entry = Sleep | Leave | Take(job: Job)

  /** tpool_worker from its lock to its next unlock. */
  function Enter(p: Shared): (Entry, Shared) {
    if p.queue == [] && !p.stop then (Sleep, p)
    else if p.stop then (Leave, p.(threads := p.threads - 1))
    else (Take(p.queue[0]), p.(queue := p.queue[1..], working := p.working + 1))
  }

  /** tpool_worker after its job; whether it signals `working_cond`. */
  function Finish(p: Shared): (bool, Shared) {
    (!p.stop && p.working - 1 == 0 && p.queue == [], p.(working := p.working - 1))
  }

  /** The condition under which tpool_wait goes (back) to sleep. */
  predicate MustWait(p: Shared) {
    p.queue != [] || (!p.stop && p.working != 0) || (p.stop && p.threads != 0)
  }

  function Add(p: Shared, job: Job): Shared { p.(queue := p.queue + [job]) }

  /** tpool_destroy before its wait. */
  function Stop(p: Shared): Shared { p.(queue := [], stop := true) }

  class Work {
    const job: Job
    var next: Work?

    constructor (job: Job)
      ensures this.job == job && next == null
    {
      this.job := job;
      next := null;
    }
  }

  ghost function JobsOf(works: seq<Work>): seq<Job> {
    if works == [] then [] else JobsOf(works[..|works| - 1]) + [works[|works| - 1].job]
  }

  lemma {:induction false} JobsOfTail(works: seq<Work>)
    requires works != []
    ensures JobsOf(works) == [works[0].job] + JobsOf(works[1..])
    decreases |works|
  {
    if |works| > 1 {
      JobsOfTail(works[..|works| - 1]);
      assert works[1..][..|works| - 2] == works[..|works| - 1][1..];
    }
  }

  lemma JobsOfSnoc(works: seq<Work>, work: Work)
    ensures JobsOf(works + [work]) == JobsOf(works) + [work.job]
  {}

  class Pool {
    var workFirst: Work?
    var workLast: Work?
    var workingCnt: int
    var threadCnt: int
    var stop: bool
    /** The queue, in order. */
    ghost var works: seq<Work>

    ghost predicate Valid()
      reads this, works
    {
      && workFirst == (if works == [] then null else works[0])
      && (works != [] ==> workLast == works[|works| - 1])
      && (forall i {:trigger works[i].next} :: 0 <= i < |works| ==>
            works[i].next == if i + 1 < |works| then works[i + 1] else null)
      && (forall i, j :: 0 <= i < j < |works| ==> works[i] != works[j])
    }

    ghost function State(): Shared
      reads this
    {
      Shared(JobsOf(works), workingCnt, threadCnt, stop)
    }

    constructor (num: nat)
      ensures Valid() && State() == Shared([], 0, if num == 0 then 2 else num, false)
    {
      workFirst, workLast, workingCnt, threadCnt, stop := null, null, 0, if num == 0 then 2 else num, false;
      works := [];
    }

    /** tpool_add_work, inside its lock */
    method AddWork(work: Work)
      requires Valid() && work !in works && work.next == null
      modifies this, works
      ensures Valid() && State() == Add(old(State()), work.job)
      ensures works == old(works) + [work]
      ensures workingCnt == old(workingCnt) && threadCnt == old(threadCnt) && stop == old(stop)
    {
      hide JobsOf;
      ghost var longer := works + [work];
      assert longer[|works|] == work && forall i :: 0 <= i < |works| ==> longer[i] == works[i];
      if workFirst == null {
        workFirst := work;
        workLast := workFirst;
      } else {
        workLast.next := work;
        workLast := work;
      }
      JobsOfSnoc(works, work);
      works := longer;
    }

    /** tpool_work_get */
    method GetWork() returns (work: Work?)
      requires Valid()
      modifies this
      ensures Valid()
      ensures works == if old(works) == [] then [] else old(works)[1..]
      ensures work == if old(works) == [] then null else old(works)[0]
      ensures workingCnt == old(workingCnt) && threadCnt == old(threadCnt) && stop == old(stop)
    {
      work := workFirst;
      if work == null {
        return;
      }
      if work.next == null {
        workFirst := null;
        workLast := null;
      } else {
        workFirst := work.next;
      }
      works := works[1..];
    }

    /** tpool_worker, one pass through its lock; a sleeper has woken up when it comes back. */
    method EnterSection() returns (entry: Entry)
      requires Valid()
      modifies this
      ensures Valid() && (entry, State()) == Enter(old(State()))
      ensures entry.Sleep? <==> old(works) == [] && !stop
      ensures entry.Leave? <==> stop
      ensures entry.Take? ==> entry.job == old(works)[0].job && works == old(works)[1..]
      ensures threadCnt == old(threadCnt) - (if stop then 1 else 0) && stop == old(stop)
      ensures workingCnt == old(workingCnt) + if entry.Take? then 1 else 0
    {
      if workFirst == null && !stop {
        return Sleep;
      }
      if stop {
        threadCnt := threadCnt - 1;
        return Leave;
      }
      JobsOfTail(works);
      var work := GetWork();
      workingCnt := workingCnt + 1;
      return Take(work.job);
    }

    method FinishSection() returns (signal: bool)
      requires Valid()
      modifies `workingCnt
      ensures Valid() && (signal, State()) == Finish(old(State()))
      ensures workingCnt == old(workingCnt) - 1
      ensures signal <==> !stop && old(workingCnt) == 1 && works == []
    {
      workingCnt := workingCnt - 1;
      signal := !stop && workingCnt == 0 && workFirst == null;
    }

    /** The test of tpool_wait's loop. */
    method CheckSection() returns (wait: bool)
      requires Valid()
      ensures wait == MustWait(State())
      ensures !wait <==> works == [] && if stop then threadCnt == 0 else workingCnt == 0
    {
      wait := workFirst != null || (!stop && workingCnt != 0) || (stop && threadCnt != 0);
    }

    /** tpool_destroy frees the queued jobs one by one and raises the stop flag. */
    method StopSection()
      requires Valid()
      modifies this
      ensures Valid() && State() == Stop(old(State()))
      ensures works == [] && stop && workingCnt == old(workingCnt) && threadCnt == old(threadCnt)
    {
      var work := workFirst;
      ghost var i: nat := 0;
      while work != null
        invariant i <= |works| && work == if i < |works| then works[i] else null
        decreases |works| - i
      {
        assert work == works[i];
        work := work.next;
        i := i + 1;
      }
      workFirst := null;
      stop := true;
      works := [];
    }
  }
}
