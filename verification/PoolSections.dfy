/**
 The thread pool's object: what each piece of src/httplib.h that runs with the mutex held does to the list
 of jobs and to the flag, tied to the step of the pool's threads that it carries out.
 */
module PoolSections {
  import opened Basics
  import opened ThreadPool

  class Pool {
    var jobs: seq<Job>
    var shutdown: bool
    const maxQueued: nat

    constructor (mqr: nat, workers: nat, callers: nat)
      ensures Shows(Init(workers, callers, mqr))
    {
      jobs, shutdown := [], false;
      maxQueued := mqr;
    }

    /** The object in a state of the step system. */
    predicate Shows(s: State)
      reads this
    {
      s.jobs == jobs && s.shut == shutdown && s.maxQueued == maxQueued
    }

    /** Lines 681-686: the caller holds the mutex. */
    method PushJob(fn: Job, ghost s: State, ghost c: nat) returns (ok: bool)
      requires Shows(s) && Inv(s) && c < |s.callers| && s.callers[c] == InLock(fn)
      modifies this
      ensures Shows(Step(s, CallerStep(c, 0)))
      ensures Step(s, CallerStep(c, 0)).callers[c] == if ok then Pushed else Refusing
      ensures jobs == if ok then old(jobs) + [fn] else old(jobs)
      ensures ok <==> maxQueued == 0 || |old(jobs)| < maxQueued
    {
      if maxQueued > 0 && |jobs| >= maxQueued {
        return false;
      }
      jobs := jobs + [fn];
      return true;
    }

    /** Lines 694-697. */
    method SetShutdown(ghost s: State)
      requires Shows(s) && s.closer.HasLock?
      modifies this
      ensures Shows(Step(s, Action.CloserStep)) && shutdown && jobs == old(jobs)
    {
      shutdown := true;
    }

    /** The predicate of the wait, lines 717-718: a worker that fails it goes to sleep. */
    method MayGoOn(ghost s: State, ghost w: nat) returns (go: bool)
      requires Shows(s) && w < |s.workers| && s.workers[w].Locked?
      ensures go <==> jobs != [] || shutdown
      ensures Step(s, WorkerStep(w)).workers[w] == if go then Passed else Asleep
    {
      go := jobs != [] || shutdown;
    }

    /** Lines 720-723: leave, or take the first job; the list is not empty when its front is taken. */
    method TakeJob(ghost s: State, ghost w: nat) returns (fn: Option<Job>)
      requires Shows(s) && Inv(s) && w < |s.workers| && s.workers[w].Passed?
      modifies this
      ensures Shows(Step(s, WorkerStep(w)))
      ensures fn.None? ==> jobs == old(jobs) == [] && shutdown && Step(s, WorkerStep(w)).workers[w].Leaving?
      ensures fn.Some? ==> old(jobs) == [fn.value] + jobs && s.accepted[|s.taken|] == fn.value
      ensures fn.Some? ==> Step(s, WorkerStep(w)).workers[w] == Holding(fn.value, |s.taken|)
    {
      if shutdown && jobs == [] {
        return None;
      }
      assert s.workers[w].Passed? ==> s.jobs != [] || s.shut;
      var front := jobs[0];
      jobs := jobs[1..];
      return Some(front);
    }
  }
}
