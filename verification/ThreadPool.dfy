/**
 The thread pool of src/httplib.h as a step system. Threads interleave at every acquisition and release
 of the mutex, every test of the wait predicate and every notification; a sleeping worker may also
 wake up for no reason.
 */
module ThreadPool {

  /** A job is known by a number; different calls may enqueue the same job. */
  type Job = nat

  /** A worker: a job it holds carries its place in the order of dequeueing. */
  datatype Worker =
    | AtTop | Locked | Asleep | Woken | Passed | Leaving | Exited
    | Holding(job: Job, ticket: nat) | Running(job: Job, ticket: nat)

  /** A thread that calls enqueue. */
  datatype Caller = Outside | Wants(job: Job) | InLock(job: Job) | Pushed | Refusing | Signalling | Accepted | Refused

  /** The thread that calls shutdown. */
  datatype Closer = NotCalled | Asked | HasLock | FlagSet | MustNotify | Joining(next: nat) | Returned

  datatype Owner = Free | WorkerOwns(worker: nat) | CallerOwns(caller: nat) | CloserOwns

  /** The pool, its threads, and the history: `flagAt` jobs had been accepted when the flag was set. */
  datatype State = State(
    workers: seq<Worker>, callers: seq<Caller>, closer: Closer, owner: Owner,
    jobs: seq<Job>, shut: bool, maxQueued: nat,
    accepted: seq<Job>, taken: seq<Job>, finished: set<nat>, flagAt: nat)

  function Init(workers: nat, callers: nat, maxQueued: nat): State {
    State(seq(workers, i => AtTop), seq(callers, i => Outside), NotCalled, Free, [], false, maxQueued, [], [], {}, 0)
  }

  datatype Action =
    | Call(caller: nat, job: Job)
    | CallerStep(caller: nat, wake: nat)
    | CallShutdown
    | CloserStep
    | WorkerStep(worker: nat)
    | Spurious(worker: nat)

  function SetWorker(s: State, w: nat, pc: Worker): State
    requires w < |s.workers|
  {
    s.(workers := s.workers[w := pc])
  }

  function SetCaller(s: State, c: nat, pc: Caller): State
    requires c < |s.callers|
  {
    s.(callers := s.callers[c := pc])
  }

  predicate IsAsleep(s: State, w: nat) {
    w < |s.workers| && s.workers[w].Asleep?
  }

  ghost predicate SomeoneAsleep(s: State) {
    exists w :: IsAsleep(s, w)
  }

  /** notify_one: some sleeping worker is woken, if there is one. */
  ghost function NotifyOne(s: State, c: nat, wake: nat): State
    requires c < |s.callers|
  {
    if IsAsleep(s, wake) then SetCaller(SetWorker(s, wake, Woken), c, Accepted)
    else if SomeoneAsleep(s) then s
    else SetCaller(s, c, Accepted)
  }

  /** Lines 679-690. */
  ghost function StepCaller(s: State, c: nat, wake: nat): State
    requires c < |s.callers|
  {
    match s.callers[c]
    case Wants(job) => if s.owner.Free? then SetCaller(s, c, InLock(job)).(owner := CallerOwns(c)) else s
    case InLock(job) =>
      if s.maxQueued > 0 && |s.jobs| >= s.maxQueued then SetCaller(s, c, Refusing)
      else SetCaller(s, c, Pushed).(jobs := s.jobs + [job], accepted := s.accepted + [job])
    case Pushed => SetCaller(s, c, Signalling).(owner := Free)
    case Refusing => SetCaller(s, c, Refused).(owner := Free)
    case Signalling => NotifyOne(s, c, wake)
    case _ => s
  }

  function WakeAll(workers: seq<Worker>): (r: seq<Worker>)
    ensures |r| == |workers|
    ensures forall i | 0 <= i < |r| :: r[i] == if workers[i].Asleep? then Woken else workers[i]
  {
    seq(|workers|, i requires 0 <= i < |workers| => if workers[i].Asleep? then Woken else workers[i])
  }

  /** Lines 692-705. */
  function StepCloser(s: State): State {
    match s.closer
    case Asked => if s.owner.Free? then s.(closer := HasLock, owner := CloserOwns) else s
    case HasLock => s.(closer := FlagSet, shut := true, flagAt := |s.accepted|)
    case FlagSet => s.(closer := MustNotify, owner := Free)
    case MustNotify => s.(closer := Joining(0), workers := WakeAll(s.workers))
    case Joining(i) =>
      if i >= |s.workers| then s.(closer := Returned)
      else if s.workers[i].Exited? then s.(closer := Joining(i + 1))
      else s
    case _ => s
  }

  /** Lines 711-729. The predicate is tested with the mutex held, and sleeping releases it atomically. */
  function StepWorker(s: State, w: nat): State
    requires w < |s.workers|
  {
    match s.workers[w]
    case AtTop => if s.owner.Free? then SetWorker(s, w, Locked).(owner := WorkerOwns(w)) else s
    case Woken => if s.owner.Free? then SetWorker(s, w, Locked).(owner := WorkerOwns(w)) else s
    case Locked =>
      if s.jobs != [] || s.shut then SetWorker(s, w, Passed)
      else SetWorker(s, w, Asleep).(owner := Free)
    case Passed =>
      if s.shut && s.jobs == [] then SetWorker(s, w, Leaving)
      else if s.jobs == [] then s
      else SetWorker(s, w, Holding(s.jobs[0], |s.taken|)).(jobs := s.jobs[1..], taken := s.taken + [s.jobs[0]])
    case Holding(job, ticket) => SetWorker(s, w, Running(job, ticket)).(owner := Free)
    case Leaving => SetWorker(s, w, Exited).(owner := Free)
    case Running(job, ticket) => SetWorker(s, w, AtTop).(finished := s.finished + {ticket})
    case _ => s
  }

  ghost function Step(s: State, a: Action): State {
    match a
    case Call(c, job) =>
      if c < |s.callers| && s.callers[c] in {Outside, Accepted, Refused} then SetCaller(s, c, Wants(job)) else s
    case CallerStep(c, wake) => if c < |s.callers| then StepCaller(s, c, wake) else s
    case CallShutdown => if s.closer.NotCalled? then s.(closer := Asked) else s
    case CloserStep => StepCloser(s)
    case WorkerStep(w) => if w < |s.workers| then StepWorker(s, w) else s
    case Spurious(w) => if IsAsleep(s, w) then SetWorker(s, w, Woken) else s
  }

  ghost function Run(s: State, acts: seq<Action>): State
    decreases |acts|
  {
    if acts == [] then s else Step(Run(s, acts[..|acts| - 1]), acts[|acts| - 1])
  }

  // ----- the invariant

  predicate WorkerHolds(pc: Worker) {
    pc.Locked? || pc.Passed? || pc.Holding? || pc.Leaving?
  }

  predicate CallerHolds(pc: Caller) {
    pc.InLock? || pc.Pushed? || pc.Refusing?
  }

  /** The mutex is held by exactly the thread that is inside a critical section. */
  ghost predicate MutexOk(s: State) {
    && (forall w | 0 <= w < |s.workers| :: WorkerHolds(s.workers[w]) <==> s.owner == WorkerOwns(w))
    && (forall c | 0 <= c < |s.callers| :: CallerHolds(s.callers[c]) <==> s.owner == CallerOwns(c))
    && ((s.closer.HasLock? || s.closer.FlagSet?) <==> s.owner == CloserOwns)
    && (s.owner.WorkerOwns? ==> s.owner.worker < |s.workers|)
    && (s.owner.CallerOwns? ==> s.owner.caller < |s.callers|)
  }

  /** Jobs leave in the order they came, once each, and the queue keeps its bound. */
  predicate QueueOk(s: State) {
    && s.accepted == s.taken + s.jobs
    && (s.maxQueued > 0 ==> |s.jobs| <= s.maxQueued)
  }

  /** A worker past its wait has something to do; one that leaves has seen the queue empty after the flag. */
  ghost predicate FlagOk(s: State) {
    && (s.shut <==> s.closer.FlagSet? || s.closer.MustNotify? || s.closer.Joining? || s.closer.Returned?)
    && s.flagAt <= |s.accepted|
    && (forall w | 0 <= w < |s.workers| :: s.workers[w].Passed? ==> s.jobs != [] || s.shut)
    && (forall w | 0 <= w < |s.workers| :: s.workers[w].Leaving? ==> s.jobs == [])
    && (forall w | 0 <= w < |s.workers| ::
          s.workers[w].Leaving? || s.workers[w].Exited? ==> s.shut && |s.taken| >= s.flagAt)
    && (forall w | 0 <= w < |s.workers| :: s.workers[w].Asleep? && s.shut ==> s.closer.FlagSet? || s.closer.MustNotify?)
  }

  predicate Holds(pc: Worker) {
    pc.Holding? || pc.Running?
  }

  predicate HasTicket(pc: Worker, t: nat) {
    Holds(pc) && pc.ticket == t
  }

  predicate TicketOk(s: State, pc: Worker)
    requires Holds(pc)
  {
    pc.ticket < |s.taken| && pc.job == s.taken[pc.ticket] && pc.ticket !in s.finished
  }

  ghost predicate Held(s: State, t: nat) {
    exists w | 0 <= w < |s.workers| :: HasTicket(s.workers[w], t)
  }

  /** Every dequeued job is finished or in the hands of exactly one worker, never both. */
  ghost predicate TicketsOk(s: State) {
    && (forall t | t in s.finished :: t < |s.taken|)
    && (forall w | 0 <= w < |s.workers| && Holds(s.workers[w]) :: TicketOk(s, s.workers[w]))
    && (forall v, w | 0 <= v < w < |s.workers| && Holds(s.workers[v]) && Holds(s.workers[w]) ::
          s.workers[v].ticket != s.workers[w].ticket)
    && (forall t: nat | t < |s.taken| && t !in s.finished :: Held(s, t))
  }

  predicate IsAwake(s: State, w: nat) {
    w < |s.workers| && !s.workers[w].Asleep? && !s.workers[w].Exited?
  }

  ghost predicate SomeoneAwake(s: State) {
    exists w :: IsAwake(s, w)
  }

  predicate IsNotifying(s: State, c: nat) {
    c < |s.callers| && (s.callers[c].Pushed? || s.callers[c].Signalling?)
  }

  ghost predicate NotifyPending(s: State) {
    exists c :: IsNotifying(s, c)
  }

  ghost predicate AllExited(s: State) {
    forall w | 0 <= w < |s.workers| :: s.workers[w].Exited?
  }

  /** No wakeup is lost: queued jobs always have someone awake to take them, or a notification to come. */
  ghost predicate WakeOk(s: State) {
    s.jobs != [] ==> SomeoneAwake(s) || NotifyPending(s) || AllExited(s)
  }

  ghost predicate JoinOk(s: State) {
    && (s.closer.Joining? ==> s.closer.next <= |s.workers|
                              && forall w | 0 <= w < s.closer.next :: s.workers[w].Exited?)
    && (s.closer.Returned? ==> AllExited(s))
  }

  ghost predicate Inv(s: State) {
    MutexOk(s) && QueueOk(s) && FlagOk(s) && TicketsOk(s) && WakeOk(s) && JoinOk(s)
  }

  // ----- every step keeps it

  /** The three kinds of thread, for one invariant at a time. */
  lemma WorkerMutex(s: State, w: nat)
    requires MutexOk(s) && w < |s.workers|
    ensures MutexOk(StepWorker(s, w))
  {
  }

  lemma CallerMutex(s: State, c: nat, wake: nat)
    requires MutexOk(s) && c < |s.callers|
    ensures MutexOk(StepCaller(s, c, wake))
  {
  }

  lemma CloserMutex(s: State)
    requires MutexOk(s)
    ensures MutexOk(StepCloser(s))
  {
  }

  lemma StepMutex(s: State, a: Action)
    requires MutexOk(s)
    ensures MutexOk(Step(s, a))
  {
    match a
    case WorkerStep(w) => if w < |s.workers| { WorkerMutex(s, w); }
    case CallerStep(c, wake) => if c < |s.callers| { CallerMutex(s, c, wake); }
    case CloserStep => CloserMutex(s);
    case _ =>
  }

  lemma StepQueue(s: State, a: Action)
    requires QueueOk(s)
    ensures QueueOk(Step(s, a))
  {
    if a.WorkerStep? && a.worker < |s.workers| && s.workers[a.worker].Passed? && s.jobs != [] {
      assert s.taken + s.jobs == (s.taken + [s.jobs[0]]) + s.jobs[1..];
    } else if a.CallerStep? && a.caller < |s.callers| && s.callers[a.caller].InLock? {
      assert s.taken + s.jobs + [s.callers[a.caller].job] == s.taken + (s.jobs + [s.callers[a.caller].job]);
    }
  }

  lemma WorkerFlag(s: State, w: nat)
    requires MutexOk(s) && QueueOk(s) && FlagOk(s) && w < |s.workers|
    ensures FlagOk(StepWorker(s, w))
  {
  }

  lemma CallerFlag(s: State, c: nat, wake: nat)
    requires MutexOk(s) && FlagOk(s) && c < |s.callers|
    ensures FlagOk(StepCaller(s, c, wake))
  {
  }

  lemma CloserFlag(s: State)
    requires MutexOk(s) && FlagOk(s)
    ensures FlagOk(StepCloser(s))
  {
  }

  lemma StepFlag(s: State, a: Action)
    requires MutexOk(s) && QueueOk(s) && FlagOk(s)
    ensures FlagOk(Step(s, a))
  {
    match a
    case WorkerStep(w) => if w < |s.workers| { WorkerFlag(s, w); }
    case CallerStep(c, wake) => if c < |s.callers| { CallerFlag(s, c, wake); }
    case CloserStep => CloserFlag(s);
    case _ =>
  }

  lemma StepJoin(s: State, a: Action)
    requires JoinOk(s)
    ensures JoinOk(Step(s, a))
  {
  }

  /** Whoever has ticket `t` before the step has it afterwards. */
  lemma HeldKeeps(s: State, r: State, t: nat)
    requires Held(s, t) && |r.workers| == |s.workers|
    requires forall w | 0 <= w < |s.workers| :: HasTicket(s.workers[w], t) ==> HasTicket(r.workers[w], t)
    ensures Held(r, t)
  {
  }

  /** A step that moves no ticket. */
  lemma SameTickets(s: State, r: State)
    requires TicketsOk(s) && |r.workers| == |s.workers| && r.taken == s.taken && r.finished == s.finished
    requires forall w | 0 <= w < |s.workers| :: Holds(s.workers[w]) || Holds(r.workers[w]) ==>
               && Holds(s.workers[w]) && Holds(r.workers[w])
               && r.workers[w].ticket == s.workers[w].ticket && r.workers[w].job == s.workers[w].job
    ensures TicketsOk(r)
  {
    forall t: nat | t < |r.taken| && t !in r.finished
      ensures Held(r, t)
    {
      assert Held(s, t);
      HeldKeeps(s, r, t);
    }
  }

  lemma TakeTickets(s: State, w: nat)
    requires TicketsOk(s) && w < |s.workers| && s.workers[w].Passed? && s.jobs != []
    ensures TicketsOk(StepWorker(s, w))
  {
    var r := StepWorker(s, w);
    forall t: nat | t < |r.taken| && t !in r.finished
      ensures Held(r, t)
    {
      if t < |s.taken| {
        assert Held(s, t);
        HeldKeeps(s, r, t);
      } else {
        assert HasTicket(r.workers[w], t);
      }
    }
  }

  lemma FinishTickets(s: State, w: nat)
    requires TicketsOk(s) && w < |s.workers| && s.workers[w].Running?
    ensures TicketsOk(StepWorker(s, w))
  {
    var r := StepWorker(s, w);
    forall t: nat | t < |r.taken| && t !in r.finished
      ensures Held(r, t)
    {
      assert Held(s, t);
      HeldKeeps(s, r, t);
    }
  }

  lemma StepTickets(s: State, a: Action)
    requires TicketsOk(s)
    ensures TicketsOk(Step(s, a))
  {
    if a.WorkerStep? && a.worker < |s.workers| && s.workers[a.worker].Passed? && s.jobs != [] {
      TakeTickets(s, a.worker);
    } else if a.WorkerStep? && a.worker < |s.workers| && s.workers[a.worker].Running? {
      FinishTickets(s, a.worker);
    } else {
      SameTickets(s, Step(s, a));
    }
  }

  lemma CallerWake(s: State, c: nat, wake: nat)
    requires WakeOk(s) && c < |s.callers|
    ensures WakeOk(StepCaller(s, c, wake))
  {
    var r := StepCaller(s, c, wake);
    if SomeoneAwake(s) {
      var w :| IsAwake(s, w);
      assert IsAwake(r, w);
    } else if IsNotifying(r, c) {
    } else if s.callers[c].Signalling? {
      if IsAsleep(s, wake) {
        assert IsAwake(r, wake);
      } else if !SomeoneAsleep(s) {
        forall w | 0 <= w < |s.workers|
          ensures s.workers[w].Exited?
        {
          assert !IsAsleep(s, w) && !IsAwake(s, w);
        }
      }
    } else if NotifyPending(s) {
      var d :| IsNotifying(s, d);
      assert IsNotifying(r, d);
    }
  }

  lemma WorkerWake(s: State, w: nat)
    requires FlagOk(s) && WakeOk(s) && w < |s.workers|
    ensures WakeOk(StepWorker(s, w))
  {
    var r := StepWorker(s, w);
    if r != s && r.jobs != [] {
      assert IsAwake(r, w);
    }
  }

  /** Waking workers up, or touching none of them. */
  lemma OthersWake(s: State, r: State)
    requires WakeOk(s) && r.jobs == s.jobs && |r.workers| == |s.workers| && |r.callers| == |s.callers|
    requires forall w | 0 <= w < |s.workers| :: r.workers[w] == s.workers[w] || (s.workers[w].Asleep? && r.workers[w].Woken?)
    requires forall c | 0 <= c < |s.callers| :: IsNotifying(s, c) ==> IsNotifying(r, c)
    ensures WakeOk(r)
  {
    if SomeoneAwake(s) {
      var w :| IsAwake(s, w);
      assert IsAwake(r, w);
    } else if NotifyPending(s) {
      var d :| IsNotifying(s, d);
      assert IsNotifying(r, d);
    }
  }

  lemma StepWake(s: State, a: Action)
    requires Inv(s)
    ensures WakeOk(Step(s, a))
  {
    if a.CallerStep? && a.caller < |s.callers| {
      CallerWake(s, a.caller, a.wake);
    } else if a.WorkerStep? && a.worker < |s.workers| {
      WorkerWake(s, a.worker);
    } else {
      OthersWake(s, Step(s, a));
    }
  }

  lemma StepInv(s: State, a: Action)
    requires Inv(s)
    ensures Inv(Step(s, a))
  {
    StepMutex(s, a);
    StepQueue(s, a);
    StepFlag(s, a);
    StepTickets(s, a);
    StepWake(s, a);
    StepJoin(s, a);
  }

  lemma InitInv(workers: nat, callers: nat, maxQueued: nat)
    ensures Inv(Init(workers, callers, maxQueued))
  {
  }

  lemma {:induction false} RunInv(workers: nat, callers: nat, maxQueued: nat, acts: seq<Action>)
    ensures var s := Run(Init(workers, callers, maxQueued), acts);
            Inv(s) && |s.workers| == workers && s.maxQueued == maxQueued
    decreases |acts|
  {
    if acts == [] {
      InitInv(workers, callers, maxQueued);
    } else {
      var before, last := acts[..|acts| - 1], acts[|acts| - 1];
      RunInv(workers, callers, maxQueued, before);
      StepInv(Run(Init(workers, callers, maxQueued), before), last);
      StepShape(Run(Init(workers, callers, maxQueued), before), last);
    }
  }

  lemma StepShape(s: State, a: Action)
    ensures |Step(s, a).workers| == |s.workers| && |Step(s, a).callers| == |s.callers|
    ensures Step(s, a).maxQueued == s.maxQueued
  {
  }

  // ----- what holds in every run

  /** First in, first out, once each, within the bound; and no wakeup is lost. */
  lemma PoolIsSafe(workers: nat, callers: nat, maxQueued: nat, acts: seq<Action>)
    requires workers > 0
    ensures var s := Run(Init(workers, callers, maxQueued), acts);
            && |s.workers| == workers && |s.taken| <= |s.accepted|
            && s.taken == s.accepted[..|s.taken|] && s.jobs == s.accepted[|s.taken|..]
            && (maxQueued > 0 ==> |s.jobs| <= maxQueued)
            && (s.jobs != [] && (forall w | 0 <= w < workers :: s.workers[w].Asleep?) ==> NotifyPending(s))
  {
    RunInv(workers, callers, maxQueued, acts);
    var s := Run(Init(workers, callers, maxQueued), acts);
    assert s.accepted == s.taken + s.jobs;
    if s.jobs != [] && forall w | 0 <= w < workers :: s.workers[w].Asleep? {
      assert !AllExited(s) by { assert s.workers[0].Asleep?; }
    }
  }

  /** A job is never run twice, nor by two workers. */
  lemma OneWorkerPerJob(workers: nat, callers: nat, maxQueued: nat, acts: seq<Action>, v: nat, w: nat)
    requires v < workers && w < workers
    ensures var s := Run(Init(workers, callers, maxQueued), acts);
            && |s.workers| == workers
            && (Holds(s.workers[v]) ==> TicketOk(s, s.workers[v]))
            && (Holds(s.workers[v]) && Holds(s.workers[w]) && v != w ==> s.workers[v].ticket != s.workers[w].ticket)
  {
    RunInv(workers, callers, maxQueued, acts);
    var s := Run(Init(workers, callers, maxQueued), acts);
    if Holds(s.workers[v]) && Holds(s.workers[w]) && v < w {
      assert s.workers[v].ticket != s.workers[w].ticket;
    }
  }

  /** The promise of shutdown: all that was accepted before the flag has run to its end. */
  ghost predicate PromiseKept(s: State) {
    s.closer.Returned? ==> forall t: nat | t < s.flagAt :: t in s.finished
  }

  lemma ReturnedMeansFinished(s: State)
    requires Inv(s) && s.closer.Returned? && |s.workers| > 0
    ensures s.flagAt <= |s.taken| && s.taken <= s.accepted
    ensures forall t: nat :: t in s.finished <==> t < |s.taken|
  {
    assert s.workers[0].Exited?;
    forall t: nat
      ensures t in s.finished <==> t < |s.taken|
    {
      assert !Held(s, t);
    }
  }

  ghost predicate Reaches(s: State, r: State) {
    exists acts :: Run(s, acts) == r
  }

  lemma FromHere(s: State)
    ensures Reaches(s, s)
  {
    assert Run(s, []) == s;
  }

  /** One more step. */
  lemma Then(s: State, r: State, a: Action, next: State)
    requires Reaches(s, r) && Step(r, a) == next
    ensures Reaches(s, next)
  {
    var acts :| Run(s, acts) == r;
    assert (acts + [a])[..|acts|] == acts;
    assert Run(s, acts + [a]) == next;
  }

  /** Caller 0 enqueues one job into an empty pool and is about to notify. */
  lemma OneJob(s: State, r: State, job: Job)
    requires Reaches(s, r) && r.callers != [] && r.callers[0].Outside?
    requires r.owner.Free? && r.jobs == [] && r.accepted == []
    ensures Reaches(s, r.(callers := r.callers[0 := Signalling], jobs := [job], accepted := [job]))
  {
    var wants := SetCaller(r, 0, Wants(job));
    var inLock := SetCaller(r, 0, InLock(job)).(owner := CallerOwns(0));
    var pushed := SetCaller(r, 0, Pushed).(owner := CallerOwns(0), jobs := [job], accepted := [job]);
    Then(s, r, Call(0, job), wants);
    assert wants.callers[0 := InLock(job)] == inLock.callers && inLock.callers[0 := Pushed] == pushed.callers;
    Then(s, wants, CallerStep(0, 0), inLock);
    assert r.jobs + [job] == [job] && r.accepted + [job] == [job];
    Then(s, inLock, CallerStep(0, 0), pushed);
    assert pushed.callers[0 := Signalling] == r.callers[0 := Signalling];
    Then(s, pushed, CallerStep(0, 0), SetCaller(pushed, 0, Signalling).(owner := Free));
  }

  /** The flag is set, and the notification is still to come. */
  lemma FlagIsSet(s: State, r: State)
    requires Reaches(s, r) && r.closer.NotCalled? && r.owner.Free?
    ensures Reaches(s, r.(closer := MustNotify, shut := true, flagAt := |r.accepted|))
  {
    var asked, inLock := r.(closer := Asked), r.(closer := HasLock, owner := CloserOwns);
    var flagged := inLock.(closer := FlagSet, shut := true, flagAt := |r.accepted|);
    Then(s, r, CallShutdown, asked);
    Then(s, asked, CloserStep, inLock);
    Then(s, inLock, CloserStep, flagged);
    Then(s, flagged, CloserStep, flagged.(closer := MustNotify, owner := Free));
  }

  /** A pool without workers accepts a job and shuts down without it. */
  lemma NoWorkersNoPromise(maxQueued: nat)
    ensures exists acts :: !PromiseKept(Run(Init(0, 1, maxQueued), acts))
  {
    var s := Init(0, 1, maxQueued);
    FromHere(s);
    assert s.callers == [Outside];
    OneJob(s, s, 7);
    var queued := s.(callers := s.callers[0 := Signalling], jobs := [7], accepted := [7]);
    FlagIsSet(s, queued);
    var notify := queued.(closer := MustNotify, shut := true, flagAt := 1);
    assert WakeAll(notify.workers) == notify.workers;
    Then(s, notify, CloserStep, notify.(closer := Joining(0)));
    var end := notify.(closer := Returned);
    Then(s, notify.(closer := Joining(0)), CloserStep, end);
    assert 0 < end.flagAt && 0 !in end.finished && !PromiseKept(end);
  }

  /** The flag is where the promise ends: whatever the pool, a job accepted after it may never be run. */
  lemma LateJobCanBeLost(workers: nat, callers: nat, maxQueued: nat, job: Job)
    requires callers > 0
    ensures exists acts :: var s := Run(Init(workers, callers, maxQueued), acts);
              s.closer.Returned? && s.accepted == [job] && s.flagAt == 0 && s.finished == {}
  {
    var s := Init(workers, callers, maxQueued);
    FromHere(s);
    FlagIsSet(s, s);
    var flagged := s.(closer := MustNotify, shut := true, flagAt := 0);
    WorkersLeave(s, flagged, workers);
    var gone := flagged.(workers := Gone(workers, workers));
    OneJob(s, gone, job);
    var late := gone.(callers := gone.callers[0 := Signalling], jobs := [job], accepted := [job]);
    JoinsTheGone(s, late);
    assert Reaches(s, late.(closer := Returned));
  }

  /** The first `k` of `n` workers have left, the others have not begun. */
  function Gone(n: nat, k: nat): seq<Worker> {
    seq(n, i => if i < k then Exited else AtTop)
  }

  lemma {:induction false} WorkersLeave(s: State, r: State, k: nat)
    requires Reaches(s, r) && r.workers == Gone(|r.workers|, 0) && k <= |r.workers|
    requires r.owner.Free? && r.shut && r.jobs == []
    ensures Reaches(s, r.(workers := Gone(|r.workers|, k)))
  {
    if k > 0 {
      WorkersLeave(s, r, k - 1);
      var m := r.(workers := Gone(|r.workers|, k - 1));
      WorkerLeaves(s, m, k - 1);
      assert m.workers[k - 1 := Exited] == Gone(|r.workers|, k);
    }
  }

  lemma WorkerLeaves(s: State, r: State, w: nat)
    requires Reaches(s, r) && w < |r.workers| && r.workers[w].AtTop? && r.owner.Free? && r.shut && r.jobs == []
    ensures Reaches(s, SetWorker(r, w, Exited))
  {
    var locked := SetWorker(r, w, Locked).(owner := WorkerOwns(w));
    var passed := SetWorker(r, w, Passed).(owner := WorkerOwns(w));
    var leaving := SetWorker(r, w, Leaving).(owner := WorkerOwns(w));
    assert locked.workers[w := Passed] == passed.workers && passed.workers[w := Leaving] == leaving.workers;
    assert leaving.workers[w := Exited] == r.workers[w := Exited];
    Then(s, r, WorkerStep(w), locked);
    Then(s, locked, WorkerStep(w), passed);
    Then(s, passed, WorkerStep(w), leaving);
    Then(s, leaving, WorkerStep(w), SetWorker(r, w, Exited));
  }

  lemma JoinsTheGone(s: State, r: State)
    requires Reaches(s, r) && AllExited(r) && r.closer.MustNotify?
    ensures Reaches(s, r.(closer := Returned))
  {
    assert WakeAll(r.workers) == r.workers;
    Then(s, r, CloserStep, r.(closer := Joining(0)));
    JoinsFirst(s, r, |r.workers|);
    Then(s, r.(closer := Joining(|r.workers|)), CloserStep, r.(closer := Returned));
  }

  lemma {:induction false} JoinsFirst(s: State, r: State, k: nat)
    requires Reaches(s, r.(closer := Joining(0))) && AllExited(r) && k <= |r.workers|
    ensures Reaches(s, r.(closer := Joining(k)))
  {
    if k > 0 {
      JoinsFirst(s, r, k - 1);
      Then(s, r.(closer := Joining(k - 1)), CloserStep, r.(closer := Joining(k)));
    }
  }

  /** Shutdown keeps its promise in every run exactly if the pool has a worker. */
  lemma ShutdownKeepsItsPromise(workers: nat, maxQueued: nat)
    ensures (forall callers, acts :: PromiseKept(Run(Init(workers, callers, maxQueued), acts))) <==> workers > 0
  {
    if workers > 0 {
      forall callers, acts
        ensures PromiseKept(Run(Init(workers, callers, maxQueued), acts))
      {
        RunInv(workers, callers, maxQueued, acts);
        var s := Run(Init(workers, callers, maxQueued), acts);
        if s.closer.Returned? {
          ReturnedMeansFinished(s);
        }
      }
    } else {
      NoWorkersNoPromise(maxQueued);
      var acts :| !PromiseKept(Run(Init(0, 1, maxQueued), acts));
      assert !PromiseKept(Run(Init(workers, 1, maxQueued), acts));
    }
  }

  // ----- nothing gets stuck

  /** Steps the pool's own threads take; a new call and a spurious wakeup come from outside. */
  predicate Internal(a: Action) {
    a.CallerStep? || a.CloserStep? || a.WorkerStep?
  }

  predicate IsResting(pc: Caller) {
    pc.Outside? || pc.Accepted? || pc.Refused?
  }

  /** Every call has returned, the workers sleep or are gone, and they left no job behind. */
  ghost predicate AtRest(s: State) {
    && (forall c | 0 <= c < |s.callers| :: IsResting(s.callers[c]))
    && (s.closer.NotCalled? || s.closer.Returned?)
    && (forall w | 0 <= w < |s.workers| :: s.workers[w].Asleep? || s.workers[w].Exited?)
    && (s.jobs == [] || AllExited(s))
  }

  lemma OwnerCanStep(s: State) returns (a: Action)
    requires Inv(s) && !s.owner.Free?
    ensures Internal(a) && Step(s, a) != s
  {
    match s.owner {
      case WorkerOwns(w) =>
        a := WorkerStep(w);
        assert WorkerHolds(s.workers[w]) && Step(s, a).workers[w] != s.workers[w];
      case CallerOwns(c) =>
        a := CallerStep(c, 0);
        assert CallerHolds(s.callers[c]) && Step(s, a).callers[c] != s.callers[c];
      case CloserOwns =>
        a := CloserStep;
        assert Step(s, a).closer != s.closer;
    }
  }

  lemma CallerCanStep(s: State, c: nat) returns (a: Action)
    requires Inv(s) && s.owner.Free? && c < |s.callers| && !IsResting(s.callers[c])
    ensures Internal(a) && Step(s, a) != s
  {
    var wake: nat := 0;
    if SomeoneAsleep(s) {
      wake :| IsAsleep(s, wake);
    }
    a := CallerStep(c, wake);
    assert !CallerHolds(s.callers[c]);
    assert Step(s, a).callers[c] != s.callers[c];
  }

  lemma WorkerCanStep(s: State, w: nat) returns (a: Action)
    requires Inv(s) && s.owner.Free? && IsAwake(s, w)
    ensures Internal(a) && Step(s, a) != s
  {
    a := WorkerStep(w);
    assert !WorkerHolds(s.workers[w]);
    assert Step(s, a).workers[w] != s.workers[w];
  }

  /** Queued jobs with nobody awake mean a notification to come, from a caller that has not returned. */
  lemma NobodyLeft(s: State)
    requires Inv(s) && (s.closer.NotCalled? || s.closer.Returned?)
    requires forall c | 0 <= c < |s.callers| :: IsResting(s.callers[c])
    requires forall w | 0 <= w < |s.workers| :: s.workers[w].Asleep? || s.workers[w].Exited?
    ensures AtRest(s)
  {
    assert forall c | 0 <= c < |s.callers| :: !IsNotifying(s, c);
    assert !SomeoneAwake(s) && !NotifyPending(s);
  }

  /** Unless everything is at rest, some thread can take a step: there is no deadlock. */
  lemma SomeoneCanStep(s: State) returns (a: Action)
    requires Inv(s) && !AtRest(s)
    ensures Internal(a) && Step(s, a) != s
  {
    if !s.owner.Free? {
      a := OwnerCanStep(s);
    } else if c: nat :| c < |s.callers| && !IsResting(s.callers[c]) {
      a := CallerCanStep(s, c);
    } else if w: nat :| w < |s.workers| && !s.workers[w].Asleep? && !s.workers[w].Exited? {
      a := WorkerCanStep(s, w);
    } else {
      if s.closer.NotCalled? || s.closer.Returned? {
        NobodyLeft(s);
      }
      a := CloserStep;
      assert Step(s, a).closer != s.closer;
    }
  }

  function WorkerWeight(pc: Worker): nat {
    match pc
    case Holding(_, _) => 6
    case Running(_, _) => 5
    case AtTop => 4
    case Woken => 4
    case Locked => 3
    case Passed => 2
    case Leaving => 1
    case Asleep => 0
    case Exited => 0
  }

  function CallerWeight(pc: Caller): nat {
    match pc
    case Wants(_) => 13
    case InLock(_) => 12
    case Pushed => 6
    case Signalling => 5
    case Refusing => 1
    case _ => 0
  }

  function CloserWeight(pc: Closer, n: nat): nat {
    match pc
    case Asked => 5 * n + 5
    case HasLock => 5 * n + 4
    case FlagSet => 5 * n + 3
    case MustNotify => 5 * n + 2
    case Joining(i) => if i > n then 1 else n - i + 1
    case _ => 0
  }

  function Sum(ws: seq<nat>): nat {
    if ws == [] then 0 else ws[0] + Sum(ws[1..])
  }

  lemma {:induction false} SumUpdate(ws: seq<nat>, i: nat, x: nat)
    requires i < |ws|
    ensures Sum(ws[i := x]) == Sum(ws) - ws[i] + x
  {
    if i > 0 {
      assert ws[i := x][1..] == ws[1..][i - 1 := x];
      SumUpdate(ws[1..], i - 1, x);
    } else {
      assert ws[i := x][1..] == ws[1..];
    }
  }

  lemma {:induction false} SumRaise(a: seq<nat>, b: seq<nat>, k: nat)
    requires |a| == |b| && forall i | 0 <= i < |a| :: b[i] <= a[i] + k
    ensures Sum(b) <= Sum(a) + k * |a|
  {
    if a != [] {
      SumRaise(a[1..], b[1..], k);
      assert k * |a| == k + k * |a[1..]|;
    }
  }

  function WorkerWeights(ws: seq<Worker>): seq<nat> {
    seq(|ws|, i requires 0 <= i < |ws| => WorkerWeight(ws[i]))
  }

  function CallerWeights(cs: seq<Caller>): seq<nat> {
    seq(|cs|, i requires 0 <= i < |cs| => CallerWeight(cs[i]))
  }

  /** How many internal steps are left at most. */
  function Measure(s: State): nat {
    Sum(WorkerWeights(s.workers)) + Sum(CallerWeights(s.callers)) + CloserWeight(s.closer, |s.workers|) + 5 * |s.jobs|
  }

  lemma WorkerMeasure(s: State, w: nat, pc: Worker)
    requires w < |s.workers|
    ensures Sum(WorkerWeights(s.workers[w := pc])) ==
            Sum(WorkerWeights(s.workers)) - WorkerWeight(s.workers[w]) + WorkerWeight(pc)
  {
    assert WorkerWeights(s.workers[w := pc]) == WorkerWeights(s.workers)[w := WorkerWeight(pc)];
    SumUpdate(WorkerWeights(s.workers), w, WorkerWeight(pc));
  }

  lemma CallerMeasure(s: State, c: nat, pc: Caller)
    requires c < |s.callers|
    ensures Sum(CallerWeights(s.callers[c := pc])) ==
            Sum(CallerWeights(s.callers)) - CallerWeight(s.callers[c]) + CallerWeight(pc)
  {
    assert CallerWeights(s.callers[c := pc]) == CallerWeights(s.callers)[c := CallerWeight(pc)];
    SumUpdate(CallerWeights(s.callers), c, CallerWeight(pc));
  }

  lemma WorkerStepMeasure(s: State, w: nat)
    requires w < |s.workers| && StepWorker(s, w) != s
    ensures Measure(StepWorker(s, w)) < Measure(s)
  {
    var r := StepWorker(s, w);
    WorkerStepWeight(s, w);
    WorkerMeasure(s, w, r.workers[w]);
  }

  lemma WorkerStepWeight(s: State, w: nat)
    requires w < |s.workers| && StepWorker(s, w) != s
    ensures var r := StepWorker(s, w);
            && r.workers == s.workers[w := r.workers[w]] && r.callers == s.callers && r.closer == s.closer
            && WorkerWeight(r.workers[w]) + 5 * |r.jobs| < WorkerWeight(s.workers[w]) + 5 * |s.jobs|
  {
  }

  lemma CallerStepMeasure(s: State, c: nat, wake: nat)
    requires c < |s.callers| && StepCaller(s, c, wake) != s
    ensures Measure(StepCaller(s, c, wake)) < Measure(s)
  {
    var r := StepCaller(s, c, wake);
    CallerMeasure(s, c, r.callers[c]);
    assert r.callers == s.callers[c := r.callers[c]] && r.closer == s.closer;
    if s.callers[c].Signalling? && IsAsleep(s, wake) {
      WorkerMeasure(s, wake, Woken);
    } else {
      assert r.workers == s.workers;
    }
  }

  lemma CloserStepMeasure(s: State)
    requires StepCloser(s) != s && JoinOk(s)
    ensures Measure(StepCloser(s)) < Measure(s)
  {
    var r := StepCloser(s);
    SumRaise(WorkerWeights(s.workers), WorkerWeights(r.workers), if s.closer.MustNotify? then 4 else 0);
  }

  lemma StepMeasure(s: State, a: Action)
    requires Inv(s) && Internal(a) && Step(s, a) != s
    ensures Measure(Step(s, a)) < Measure(s)
  {
    match a
    case WorkerStep(w) => WorkerStepMeasure(s, w);
    case CallerStep(c, wake) => CallerStepMeasure(s, c, wake);
    case CloserStep => CloserStepMeasure(s);
  }

  /** A run of internal steps, each of which changes something. */
  ghost predicate Productive(s: State, acts: seq<Action>)
    decreases |acts|
  {
    acts != [] ==>
      var before, last := acts[..|acts| - 1], acts[|acts| - 1];
      Productive(s, before) && Internal(last) && Run(s, acts) != Run(s, before)
  }

  /** The threads cannot go on forever by themselves, and they stop only when all is at rest. */
  lemma {:induction false} PoolComesToRest(s: State, acts: seq<Action>)
    requires Inv(s) && Productive(s, acts)
    ensures Inv(Run(s, acts)) && |acts| + Measure(Run(s, acts)) <= Measure(s)
    ensures (forall a | Internal(a) :: Step(Run(s, acts), a) == Run(s, acts)) ==> AtRest(Run(s, acts))
    decreases |acts|
  {
    if acts != [] {
      var before, last := acts[..|acts| - 1], acts[|acts| - 1];
      PoolComesToRest(s, before);
      StepInv(Run(s, before), last);
      StepMeasure(Run(s, before), last);
    }
    if !AtRest(Run(s, acts)) {
      var a := SomeoneCanStep(Run(s, acts));
    }
  }
}
