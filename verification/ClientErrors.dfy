/**
 The retry of src/httplib.h: send tries once more if its Error says that the peer may have closed, and checks
 that the first try has failed. The caller owns the variable, so whether the check holds depends on what
 variables callers pass.
 */
module ClientErrors {
  import opened Basics
  import opened ClientSocket
  import opened ClientRuns
  import opened ClientSchedules

  /** The check of line 6971: a first try that reports a closed connection has failed. */
  ghost predicate RetryOk(s: State) {
    forall t | 0 <= t < |s.threads| && s.threads[t].Call? :: RetryFrameOk(s.errs, s.threads[t].top)
  }

  predicate RetryFrameOk(errs: set<nat>, f: Frame) {
    f.Send? && f.pc.Done? && !f.second && f.variable in errs ==> !f.pc.ret
  }

  // ----- variables that are not shared

  /** A call of the client's own has its caller's variable, and any other one that no call below it has. */
  predicate Separate(stack: Calls) {
    stack.Call? ==>
      && Separate(stack.below)
      && (stack.top.Send? ==>
            if stack.top.own
            then stack.below.Call? && stack.below.top.Send? && stack.below.top.variable == stack.top.variable
            else !Uses(stack.below, stack.top.variable))
  }

  ghost predicate VarsOk(s: State) {
    && (forall t | 0 <= t < |s.threads| :: Separate(s.threads[t]))
    && (forall t, u, v | 0 <= t < |s.threads| && 0 <= u < |s.threads| && t != u ::
          !(Uses(s.threads[t], v) && Uses(s.threads[u], v)))
  }

  // ----- where the error can be

  predicate HasFailed(pc: SendPc) {
    match pc
    case Answered(ret) => !ret
    case Finishing(ret, _) => !ret
    case Unmarking(ret, _) => !ret
    case Ending(ret, _) => !ret
    case Unlocking(ret) => !ret
    case Done(ret) => !ret
    case _ => false
  }

  /** The second try, up to the connection it has to make. */
  predicate IsRetrying(f: Frame) {
    f.Send? && f.second && (f.pc.Entering? || f.pc.Checking? || f.pc.Connecting?)
  }

  /** The error is only found where send_ has failed, or where a call of the client's own, with variable
      `inner`, has. */
  predicate FrameErrOk(errs: set<nat>, inner: Option<nat>, f: Frame) {
    f.Send? ==>
      && (f.variable in errs && inner != Some(f.variable) ==> HasFailed(f.pc) || IsRetrying(f))
      && (f.pc.Waiting? ==> !f.second)
  }

  function Inner(f: Frame): Option<nat> {
    if f.Send? && f.own then Some(f.variable) else None
  }

  predicate StackErrOk(errs: set<nat>, inner: Option<nat>, stack: Calls)
    decreases stack
  {
    stack.Call? ==> FrameErrOk(errs, inner, stack.top) && StackErrOk(errs, Inner(stack.top), stack.below)
  }

  /** A try that failed, and until it connects the one after it, has no socket. */
  predicate IsClosed(f: Frame) {
    f.Send? && (((f.pc.Unlocking? || f.pc.Done?) && !f.pc.ret) || (f.second && (f.pc.Entering? || f.pc.Checking?)))
  }

  ghost predicate ErrOk(s: State) {
    && VarsOk(s)
    && (forall t | 0 <= t < |s.threads| :: StackErrOk(s.errs, None, s.threads[t]))
    && (forall t | 0 <= t < |s.threads| && s.threads[t].Call? && IsClosed(s.threads[t].top) :: s.socket.None?)
  }

  /** What a step of thread `t` must leave right on its own stack, and for the others' variables. */
  ghost predicate OwnErrOk(s: State, r: State, t: nat) {
    && t < |s.threads| == |r.threads|
    && Separate(r.threads[t])
    && (forall v | Uses(r.threads[t], v) :: Uses(s.threads[t], v) || !InUse(s, v))
    && (forall v: nat :: Uses(s.threads[t], v) || !InUse(s, v) || (v in r.errs <==> v in s.errs))
    && StackErrOk(r.errs, None, r.threads[t])
    && (r.threads[t].Call? && IsClosed(r.threads[t].top) ==> r.socket.None?)
  }

  lemma {:induction false} SameErrs(errs: set<nat>, more: set<nat>, inner: Option<nat>, stack: Calls)
    requires StackErrOk(errs, inner, stack)
    requires forall v | Uses(stack, v) :: v in errs <==> v in more
    ensures StackErrOk(more, inner, stack)
    decreases stack
  {
    if stack.Call? {
      assert stack.top.Send? ==> Uses(stack, stack.top.variable);
      assert forall v | Uses(stack.below, v) :: Uses(stack, v);
      SameErrs(errs, more, Inner(stack.top), stack.below);
    }
  }

  /** Below a call, what happens to its variable concerns only the callers it reports to. */
  lemma {:induction false} BelowErr(errs: set<nat>, more: set<nat>, f: Frame, below: Calls)
    requires f.Send? && Separate(Call(f, below)) && StackErrOk(errs, Inner(f), below)
    requires forall v | v != f.variable :: v in errs <==> v in more
    ensures StackErrOk(more, Inner(f), below)
    decreases below
  {
    if f.own {
      BelowErr(errs, more, below.top, below.below);
    } else {
      SameErrs(errs, more, None, below);
    }
  }

  /** A step that moves the top frame on, and may change its variable. */
  lemma TopErr(s: State, r: State, t: nat, g: Frame)
    requires ErrOk(s) && t < |s.threads| && s.threads[t].Call? && s.threads[t].top.Send?
    requires g.Send? && g.variable == s.threads[t].top.variable && g.own == s.threads[t].top.own
    requires r.threads == s.threads[t := Call(g, s.threads[t].below)]
    requires forall v | v != g.variable :: v in r.errs <==> v in s.errs
    requires FrameErrOk(r.errs, None, g)
    requires IsClosed(g) ==> r.socket.None?
    ensures OwnErrOk(s, r, t)
  {
    var stack := s.threads[t];
    assert Separate(stack) && StackErrOk(s.errs, None, stack);
    assert Uses(stack, g.variable);
    BelowErr(s.errs, r.errs, stack.top, stack.below);
    assert r.threads[t] == Call(g, stack.below);
  }

  lemma NothingErr(s: State, t: nat)
    requires ErrOk(s) && t < |s.threads|
    ensures OwnErrOk(s, s, t)
  {
  }

  lemma CheckErr(s: State, t: nat, f: Frame, alive: bool)
    requires ErrOk(s) && t < |s.threads| && s.threads[t].Call? && f == s.threads[t].top && f.Send? && f.pc.Checking?
    ensures OwnErrOk(s, Check(s, t, f, alive), t)
  {
    assert StackErrOk(s.errs, None, s.threads[t]);
    var r := Check(s, t, f, alive);
    TopErr(s, r, t, r.threads[t].top);
  }

  lemma ConnectErr(s: State, t: nat, f: Frame, connected: bool, ret: bool, keeps: bool)
    requires ErrOk(s) && NoLeak(s) && t < |s.threads| && s.threads[t].Call? && f == s.threads[t].top && f.Send?
    requires f.pc.Connecting?
    ensures OwnErrOk(s, Connect(s, t, f, connected, ret, keeps), t)
  {
    assert StackErrOk(s.errs, None, s.threads[t]);
    assert IsConnecting(f) && s.socket.None?;
    var r := Connect(s, t, f, connected, ret, keeps);
    TopErr(s, r, t, r.threads[t].top);
  }

  lemma OpeningErr(s: State, t: nat, f: Frame, a: Answer)
    requires ErrOk(s) && NoLeak(s) && t < |s.threads| && s.threads[t].Call? && f == s.threads[t].top && f.Send?
    requires IsOpening(f.pc)
    ensures OwnErrOk(s, StepOpening(s, t, f, a), t)
  {
    if f.pc.Checking? {
      CheckErr(s, t, f, a.alive);
    } else if f.pc.Connecting? {
      ConnectErr(s, t, f, a.alive, a.ret, a.err);
    } else {
      assert StackErrOk(s.errs, None, s.threads[t]);
      var r := StepOpening(s, t, f, a);
      if r == s {
        NothingErr(s, t);
      } else {
        TopErr(s, r, t, r.threads[t].top);
      }
    }
  }

  lemma InnerErr(s: State, t: nat, f: Frame, a: Answer)
    requires ErrOk(s) && t < |s.threads| && s.threads[t].Call? && f == s.threads[t].top && f.Send? && IsInner(f.pc)
    ensures OwnErrOk(s, StepInner(s, t, f, a), t)
  {
    assert StackErrOk(s.errs, None, s.threads[t]);
    var r := StepInner(s, t, f, a);
    if r == s {
      NothingErr(s, t);
    } else {
      TopErr(s, r, t, r.threads[t].top);
    }
  }

  lemma ClosingErr(s: State, t: nat, f: Frame)
    requires ErrOk(s) && t < |s.threads| && s.threads[t].Call? && f == s.threads[t].top && f.Send?
    requires !IsOpening(f.pc) && !IsInner(f.pc) && !f.pc.Done?
    ensures OwnErrOk(s, StepClosing(s, t, f), t)
  {
    assert StackErrOk(s.errs, None, s.threads[t]);
    assert IsClosed(f) ==> s.socket.None?;
    var r := StepClosing(s, t, f);
    if r == s {
      NothingErr(s, t);
    } else {
      TopErr(s, r, t, r.threads[t].top);
    }
  }

  /** What a call leaves to the one below it. */
  lemma CallerErr(errs: set<nat>, f: Frame, below: Calls)
    requires f.Send? && f.pc.Done? && Separate(Call(f, below)) && StackErrOk(errs, None, Call(f, below))
    requires f.variable in errs ==> !f.pc.ret
    requires below.Call? ==> IsCalling(below.top)
    ensures Separate(Caller(f, below)) && StackErrOk(errs, None, Caller(f, below))
    ensures forall v :: Uses(Caller(f, below), v) <==> Uses(below, v)
    ensures Caller(f, below).Call? ==> !IsClosed(Caller(f, below).top)
  {
    assert StackErrOk(errs, Inner(f), below) && Separate(below);
    if f.own {
      assert FrameErrOk(errs, Inner(f), below.top);
    }
  }

  lemma ReturnErr(s: State, t: nat, f: Frame)
    requires ErrOk(s) && t < |s.threads| && s.threads[t].Call? && f == s.threads[t].top && f.Send? && f.pc.Done?
    requires StackOk(s.threads[t])
    ensures OwnErrOk(s, Return(s, t, f), t)
  {
    var below := s.threads[t].below;
    assert StackErrOk(s.errs, None, s.threads[t]) && Separate(s.threads[t]);
    if f.variable in s.errs && !f.second {
      TopErr(s, Return(s, t, f), t, f.(pc := Entering, second := true));
    } else {
      CallerErr(s.errs, f, below);
      assert forall v | Uses(below, v) :: Uses(s.threads[t], v);
    }
  }

  /** A call with a variable of its own that does not hold the error. */
  lemma SendErr(s: State, t: nat, v: nat)
    requires ErrOk(s) && t < |s.threads| && v !in s.errs && !InUse(s, v)
    ensures OwnErrOk(s, SetStack(s, t, Call(Send(false, false, Waiting, v), s.threads[t])), t)
  {
    assert StackErrOk(s.errs, None, s.threads[t]) && Separate(s.threads[t]);
    assert !Uses(s.threads[t], v);
  }

  lemma CallOwnErr(s: State, t: nat, f: Frame, keeps: bool)
    requires ErrOk(s) && t < |s.threads| && s.threads[t].Call? && f == s.threads[t].top && MayFollow(f)
    ensures OwnErrOk(s, CallOwn(s, t, f, keeps), t)
  {
    var stack := s.threads[t];
    assert StackErrOk(s.errs, None, stack) && Separate(stack) && f.variable !in s.errs;
    assert Uses(stack, f.variable);
    var r := CallOwn(s, t, f, keeps);
    assert r.errs == s.errs;
    assert FrameErrOk(s.errs, Some(f.variable), f);
  }

  lemma PushStopErr(s: State, t: nat)
    requires ErrOk(s) && t < |s.threads|
    ensures OwnErrOk(s, SetStack(s, t, Call(Stop(Asking), s.threads[t])), t)
  {
    assert StackErrOk(s.errs, None, s.threads[t]) && Separate(s.threads[t]);
  }

  lemma StopErr(s: State, t: nat, pc: StopPc)
    requires ErrOk(s) && t < |s.threads| && s.threads[t].Call? && s.threads[t].top == Stop(pc) && StackOk(s.threads[t])
    ensures OwnErrOk(s, StepStop(s, t, pc), t)
  {
    var below := s.threads[t].below;
    assert StackErrOk(s.errs, None, s.threads[t]) && Separate(s.threads[t]);
    assert below.Call? ==> !IsClosed(below.top);
  }

  /** The program sets a variable that no call is using. */
  lemma AssignErr(s: State, t: nat, v: nat, error: bool)
    requires ErrOk(s) && t < |s.threads| && !InUse(s, v)
    ensures OwnErrOk(s, s.(errs := Hold(s.errs, v, error)), t)
  {
    assert !Uses(s.threads[t], v);
    SameErrs(s.errs, Hold(s.errs, v, error), None, s.threads[t]);
  }

  // ----- every step keeps it

  lemma AdvanceErr(s: State, t: nat, a: Answer)
    requires Inv(s) && ErrOk(s) && t < |s.threads| && s.threads[t].Call?
    ensures OwnErrOk(s, Step(s, Advance(t, a)), t)
  {
    var f := s.threads[t].top;
    if f.Stop? {
      StopErr(s, t, f.stopPc);
    } else if IsOpening(f.pc) {
      OpeningErr(s, t, f, a);
    } else if IsInner(f.pc) {
      InnerErr(s, t, f, a);
    } else if f.pc.Done? {
      ReturnErr(s, t, f);
    } else {
      ClosingErr(s, t, f);
    }
  }

  lemma CloseInsideErr(s: State, t: nat, f: Frame)
    requires ErrOk(s) && t < |s.threads| && s.threads[t].Call? && f == s.threads[t].top && IsProcessing(f)
    ensures OwnErrOk(s, SetTop(s, t, f.(pc := AskingToClose)), t)
  {
    assert StackErrOk(s.errs, None, s.threads[t]);
    TopErr(s, SetTop(s, t, f.(pc := AskingToClose)), t, f.(pc := AskingToClose));
  }

  /** Callers pass a variable that does not hold the error and that no other call has, and leave it alone. */
  predicate IsTidy(s: State, a: Action) {
    && (a.CallSend? ==> a.variable !in s.errs && !InUse(s, a.variable))
    && (a.Assign? ==> !InUse(s, a.variable))
  }

  lemma OwnErr(s: State, a: Action)
    requires Inv(s) && ErrOk(s) && IsTidy(s, a) && a.thread < |s.threads| && Step(s, a) != s
    ensures OwnErrOk(s, Step(s, a), a.thread)
  {
    var t, stack := a.thread, s.threads[a.thread];
    match a
    case CallSend(_, v) => SendErr(s, t, v);
    case CallAgain(_, keeps) => CallOwnErr(s, t, stack.top, keeps);
    case CallStop(_) => PushStopErr(s, t);
    case Assign(_, v, error) => AssignErr(s, t, v, error);
    case CloseInside(_) => CloseInsideErr(s, t, stack.top);
    case Advance(_, answer) => AdvanceErr(s, t, answer);
  }

  /** While one thread's try has failed and not connected again, no other thread opens a socket. */
  lemma OthersStayClosed(s: State, a: Action, t: nat)
    requires Inv(s) && ErrOk(s) && t < |s.threads| && t != a.thread
    requires s.threads[t].Call? && IsClosed(s.threads[t].top)
    ensures Step(s, a).socket.None?
  {
    assert Held(s.threads[t]) > 0 && s.requestOwner == Some(t);
    if a.thread < |s.threads| && s.threads[a.thread].Call? && s.threads[a.thread].top.Send? {
      assert Held(s.threads[a.thread]) == 0;
    }
  }

  /** The variables that another thread's calls have are not touched. */
  lemma OthersErr(s: State, r: State, actor: nat, t: nat)
    requires ErrOk(s) && OwnErrOk(s, r, actor) && t < |s.threads| && t != actor && r.threads[t] == s.threads[t]
    ensures StackErrOk(r.errs, None, r.threads[t])
    ensures forall v :: !(Uses(r.threads[actor], v) && Uses(r.threads[t], v))
  {
    forall v | Uses(s.threads[t], v)
      ensures v in s.errs <==> v in r.errs
      ensures !Uses(r.threads[actor], v)
    {
      assert InUse(s, v) && !Uses(s.threads[actor], v);
    }
    SameErrs(s.errs, r.errs, None, s.threads[t]);
  }

  lemma StepVars(s: State, r: State, actor: nat)
    requires ErrOk(s) && OwnErrOk(s, r, actor) && actor < |s.threads| == |r.threads|
    requires forall t | 0 <= t < |s.threads| && t != actor :: r.threads[t] == s.threads[t]
    ensures VarsOk(r)
  {
    forall t, u, v | 0 <= t < |r.threads| && 0 <= u < |r.threads| && t != u
      ensures !(Uses(r.threads[t], v) && Uses(r.threads[u], v))
    {
      if t == actor {
        OthersErr(s, r, actor, u);
      } else if u == actor {
        OthersErr(s, r, actor, t);
      }
    }
  }

  lemma StepErr(s: State, a: Action)
    requires Inv(s) && ErrOk(s) && IsTidy(s, a)
    ensures ErrOk(Step(s, a))
  {
    var r := Step(s, a);
    if r != s {
      StepEffect(s, a);
      OwnErr(s, a);
      StepVars(s, r, a.thread);
      forall t | 0 <= t < |s.threads|
        ensures StackErrOk(r.errs, None, r.threads[t])
        ensures r.threads[t].Call? && IsClosed(r.threads[t].top) ==> r.socket.None?
      {
        if t != a.thread {
          OthersErr(s, r, a.thread, t);
          if s.threads[t].Call? && IsClosed(s.threads[t].top) {
            OthersStayClosed(s, a, t);
          }
        }
      }
    }
  }

  // ----- runs in which the check holds

  /** Every action of the run that changes anything is tidy. */
  ghost predicate TidyRun(s: State, acts: seq<Action>)
    decreases |acts|
  {
    acts != [] ==>
      var before, last := acts[..|acts| - 1], acts[|acts| - 1];
      && TidyRun(s, before)
      && (IsTidy(Run(s, before), last) || Step(Run(s, before), last) == Run(s, before))
  }

  lemma {:induction false} RunErr(config: Config, threads: nat, acts: seq<Action>)
    requires TidyRun(Init(config, threads), acts)
    ensures ErrOk(Run(Init(config, threads), acts))
    decreases |acts|
  {
    if acts != [] {
      var before, last := acts[..|acts| - 1], acts[|acts| - 1];
      var s := Run(Init(config, threads), before);
      RunErr(config, threads, before);
      RunInv(config, threads, before);
      if Step(s, last) != s {
        StepErr(s, last);
      }
    }
  }

  /** The check holds in every run in which each call is given a variable that does not hold the error, and
      nothing else uses that variable before the call returns. */
  lemma TidyCallsAreSafe(config: Config, threads: nat, acts: seq<Action>)
    requires TidyRun(Init(config, threads), acts)
    ensures RetryOk(Run(Init(config, threads), acts))
  {
    RunErr(config, threads, acts);
    var s := Run(Init(config, threads), acts);
    forall t | 0 <= t < |s.threads| && s.threads[t].Call?
      ensures RetryFrameOk(s.errs, s.threads[t].top)
    {
      assert StackErrOk(s.errs, None, s.threads[t]);
    }
  }

  lemma {:induction false} AlwaysTidy(config: Config, threads: nat, acts: seq<Action>)
    requires !config.stale && !config.shares
    ensures TidyRun(Init(config, threads), acts)
    decreases |acts|
  {
    if acts != [] {
      AlwaysTidy(config, threads, acts[..|acts| - 1]);
      RunInv(config, threads, acts[..|acts| - 1]);
    }
  }

  /** Without TLS only the program can bring the error in. */
  lemma StepWithoutTls(s: State, a: Action)
    requires !s.config.ssl && s.errs == {} && !a.Assign?
    ensures Step(s, a).errs == {} && Step(s, a).config == s.config
  {
  }

  lemma {:induction false} RunWithoutTls(config: Config, threads: nat, acts: seq<Action>)
    requires !config.ssl && NoAssign(acts)
    ensures var s := Run(Init(config, threads), acts); s.errs == {} && s.config == config
    decreases |acts|
  {
    if acts != [] {
      var before, last := acts[..|acts| - 1], acts[|acts| - 1];
      assert last in acts && forall a | a in before :: a in acts;
      RunWithoutTls(config, threads, before);
      StepWithoutTls(Run(Init(config, threads), before), last);
    }
  }

  // ----- runs in which it fails

  /** Thread 0 at the check, with a result of true and the error. */
  lemma Fails(s: State, w: Scene, v: nat)
    requires v in w.errs && Reaches(s, At(w, Send(false, false, Done(true), v), false))
    ensures exists acts :: NoAssign(acts) && !RetryOk(Run(s, acts))
  {
    var r := At(w, Send(false, false, Done(true), v), false);
    assert !RetryFrameOk(r.errs, r.threads[0].top);
    var acts :| NoAssign(acts) && Run(s, acts) == r;
    assert !RetryOk(Run(s, acts));
  }

  /** A call that is given a variable with the error, over a connection that was kept alive, can succeed:
      nothing resets the error. */
  lemma StaleFails(s: State, w: Scene, v: nat)
    requires w.config.stale && w.below.Idle? && v in w.errs && w.socket.Some? && !w.asked
    requires Reaches(s, Resting(w)) && !InUse(Resting(w), v)
    ensures exists acts :: NoAssign(acts) && !RetryOk(Run(s, acts))
  {
    Begins(s, w, v);
    Tries(s, w, Send(false, false, Entering, v), true);
    Fails(s, Finished(w, v, true), v);
  }

  /** So can a request whose variable gets the error while it is processed. */
  lemma SharedFails(s: State, w: Scene, v: nat)
    requires v in w.errs && Reaches(s, At(w, Send(false, false, Processing, v), true))
    ensures exists acts :: NoAssign(acts) && !RetryOk(Run(s, acts))
  {
    Finishes(s, w, Send(false, false, Processing, v), true);
    Fails(s, Finished(w, v, true), v);
  }

  function Alone(config: Config): Scene {
    Scene(config, [], Idle, None, 0, false, {})
  }

  lemma StartsAlone(config: Config)
    ensures Init(config, 1) == Resting(Alone(config))
    ensures Reaches(Init(config, 1), Resting(Alone(config)))
  {
    InitRests(config, 1);
    assert seq(0, i => Idle) == [];
    FromHere(Init(config, 1));
  }

  /**
   A request fails because the peer may have closed, another one opens a connection that is kept alive, and a
   third one, sent with the first one's Error, succeeds on that connection.
   */
  lemma OwnStaleError(config: Config)
    requires config.ssl && config.stale
    ensures exists acts :: NoAssign(acts) && !RetryOk(Run(Init(config, 1), acts))
  {
    var s, w := Init(config, 1), Alone(config);
    StartsAlone(config);
    Begins(s, w, 1);
    FailsTwice(s, w, 1);
    var w1 := Failed(w, 1);
    Returns(s, w1, Send(true, false, Done(false), 1));
    KeepsAlive(s, w1, 0);
    StaleFails(s, w1.(socket := Some(w1.created), created := w1.created + 1), 1);
  }

  /**
   While a request is processed a callback sends another one and passes on the same Error. That one fails because
   the peer may have closed; the first one goes on and succeeds.
   */
  lemma OwnSharedError(config: Config)
    requires config.ssl && config.shares
    ensures exists acts :: NoAssign(acts) && !RetryOk(Run(Init(config, 1), acts))
  {
    var s, w, f := Init(config, 1), Alone(config), Send(false, false, Processing, 0);
    StartsAlone(config);
    Begins(s, w, 0);
    Starts(s, w, f);
    var w1 := Opened(w, 0, true);
    Nests(s, w1, f, 0);
    var inside := w1.(below := Call(f, Idle));
    FailsTwice(s, inside, 0);
    ReturnsTo(s, Failed(w1, 0), Send(true, false, Done(false), 0), f);
    SharedFails(s, Failed(w1, 0), 0);
  }

  /** The run `after` continues one that reaches `m`. */
  lemma Continues(s: State, first: seq<Action>, m: State)
    requires Run(s, first) == m && exists acts :: NoAssign(acts) && !RetryOk(Run(m, acts))
    ensures exists acts :: !RetryOk(Run(s, acts))
  {
    var acts :| NoAssign(acts) && !RetryOk(Run(m, acts));
    RunConcat(s, first, acts);
    assert !RetryOk(Run(s, first + acts));
  }

  /** The error need not come from this client: another one's failed call leaves it just as well. */
  lemma ForeignStaleError(config: Config)
    requires config.stale
    ensures exists acts :: !RetryOk(Run(Init(config, 1), acts))
  {
    var s, w, first := Init(config, 1), Alone(config).(errs := {1}), [Assign(0, 1, true)];
    StartsAlone(config);
    assert Run(s, first) == Step(s, Assign(0, 1, true)) by {
      assert first[..0] == [];
    }
    assert Run(s, first) == Resting(w);
    FromHere(Resting(w));
    KeepsAlive(Resting(w), w, 0);
    StaleFails(Resting(w), w.(socket := Some(0), created := 1), 1);
    Continues(s, first, Resting(w));
  }

  /** A callback lets another client report to the variable of the call it runs inside. */
  lemma ForeignSharedError(config: Config)
    requires config.shares
    ensures exists acts :: !RetryOk(Run(Init(config, 1), acts))
  {
    var s, w, f := Init(config, 1), Alone(config), Send(false, false, Processing, 0);
    StartsAlone(config);
    Begins(s, w, 0);
    Starts(s, w, f);
    var w1 := Opened(w, 0, true);
    var m := At(w1, f, true);
    var acts :| NoAssign(acts) && Run(s, acts) == m;
    var first, r := acts + [Assign(0, 0, true)], At(w1.(errs := {0}), f, true);
    assert first[..|first| - 1] == acts;
    assert Run(s, first) == Step(m, Assign(0, 0, true)) == r;
    FromHere(r);
    SharedFails(r, w1.(errs := {0}), 0);
    Continues(s, first, r);
  }

  // ----- exactly when it holds

  /**
   The check of line 6971 holds in every run exactly if no call is given a variable that holds the error or that
   another call is using. TLS does not matter: the error can come from another client.
   */
  lemma RetryCheckHolds(config: Config)
    ensures (forall threads, acts :: RetryOk(Run(Init(config, threads), acts))) <==> !config.stale && !config.shares
  {
    if config.stale {
      ForeignStaleError(config);
      var acts :| !RetryOk(Run(Init(config, 1), acts));
    } else if config.shares {
      ForeignSharedError(config);
      var acts :| !RetryOk(Run(Init(config, 1), acts));
    } else {
      forall threads, acts
        ensures RetryOk(Run(Init(config, threads), acts))
      {
        AlwaysTidy(config, threads, acts);
        TidyCallsAreSafe(config, threads, acts);
      }
    }
  }

  /** Where nothing but this client ever sets the callers' variables, it is also enough to do without TLS. */
  lemma RetryCheckHoldsAlone(config: Config)
    ensures (forall threads, acts | NoAssign(acts) :: RetryOk(Run(Init(config, threads), acts)))
       <==> !config.ssl || (!config.stale && !config.shares)
  {
    if config.ssl && config.stale {
      OwnStaleError(config);
      var acts :| NoAssign(acts) && !RetryOk(Run(Init(config, 1), acts));
    } else if config.ssl && config.shares {
      OwnSharedError(config);
      var acts :| NoAssign(acts) && !RetryOk(Run(Init(config, 1), acts));
    } else {
      forall threads, acts | NoAssign(acts)
        ensures RetryOk(Run(Init(config, threads), acts))
      {
        if config.ssl {
          RetryCheckHolds(config);
        } else {
          RunWithoutTls(config, threads, acts);
        }
      }
    }
  }
}
