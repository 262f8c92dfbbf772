/**
 How the client of src/httplib.h shares one socket among threads, as a step system: a recursive request
 mutex around whole requests, a plain socket mutex around each change, and a count of requests in flight.
 */
module ClientSocket {
  import opened Basics

  /**
   Where a call of send is. `ret` is what send_ returns, `hangUp` whether the connection is to be closed
   afterwards. Answered means that a redirect or an authorization has been followed, with that result.
   From Marking to Unmarking the frame counts as a request in flight.
   */
  datatype SendPc =
    | Waiting | Entering | Checking | Connecting | Marking | Marked | Processing
    | AskingToClose | ClosingInside | ClosedInside | Answered(ret: bool)
    | Finishing(ret: bool, hangUp: bool) | Unmarking(ret: bool, hangUp: bool) | Ending(ret: bool, hangUp: bool)
    | Unlocking(ret: bool) | Done(ret: bool)

  datatype StopPc = Asking | Deciding | Decided

  /**
   A call on a thread's stack. `second` says that send_ is tried again; `own` that the call was made by the
   client itself, for a redirect or for authorization; `variable` is the Error it was given to report to,
   which is its caller's if the call is the client's own.
   */
  datatype Frame =
    | Send(second: bool, own: bool, pc: SendPc, variable: nat)
    | Stop(stopPc: StopPc)

  /** The calls a thread is inside of, the last one first. */
  datatype Calls = Idle | Call(top: Frame, below: Calls)

  /**
   `ssl`: this client, or one it follows a redirect to, speaks TLS without a proxy, which is where the error
   for a peer that may have closed comes from. `stale`: a call may be given a variable that holds this error.
   `shares`: a call may be given the variable of a call that has not returned, and the program or another
   client may set such a variable. A redirect to another client shows in how the request ends: that client
   has a connection to make, so it leaves the error behind only when it fails.
   */
  datatype Config = Config(ssl: bool, stale: bool, shares: bool)

  /** A socket is known by a number that is never used again; `errs` are the variables that hold the error. */
  datatype State = State(
    config: Config, threads: seq<Calls>,
    requestOwner: Option<nat>, requestDepth: nat, socketOwner: Option<nat>,
    socket: Option<nat>, created: nat,
    inFlight: nat, fromThread: Option<nat>, shouldClose: bool, errs: set<nat>)

  function Init(config: Config, threads: nat): State {
    State(config, seq(threads, i => Idle), None, 0, None, None, 0, 0, None, false, {})
  }

  /** What the world answers: is the socket alive, did connecting work, how did the request end. */
  datatype Answer = Answer(alive: bool, ret: bool, hangUp: bool, err: bool)

  /** Assign is what the program, or another client, does to a variable. */
  datatype Action =
    | CallSend(thread: nat, variable: nat)
    | CallAgain(thread: nat, keeps: bool)
    | CallStop(thread: nat)
    | Assign(thread: nat, variable: nat, error: bool)
    | CloseInside(thread: nat)
    | Advance(thread: nat, answer: Answer)

  function SetStack(s: State, t: nat, stack: Calls): State
    requires t < |s.threads|
  {
    s.(threads := s.threads[t := stack])
  }

  function SetTop(s: State, t: nat, f: Frame): State
    requires t < |s.threads| && s.threads[t].Call?
  {
    SetStack(s, t, Call(f, s.threads[t].below))
  }

  /** Variable `v` holds the error, or does not. */
  function Hold(errs: set<nat>, v: nat, holds: bool): (r: set<nat>)
    ensures v in r <==> holds
    ensures forall w | w != v :: w in r <==> w in errs
  {
    if holds then errs + {v} else errs - {v}
  }

  predicate IsProcessing(f: Frame) {
    f.Send? && f.pc.Processing?
  }

  /** A frame from which another method of the client may have been called. */
  predicate IsCalling(f: Frame) {
    f.Send? && (f.pc.Processing? || f.pc.Answered?)
  }

  /** A thread makes a call from outside, or from a callback while a request is being processed. */
  predicate MayCall(stack: Calls) {
    stack.Idle? || IsProcessing(stack.top)
  }

  // ----- the steps

  /** Lines 6967-6968: the request mutex is recursive. */
  function TakeRequestMutex(s: State, t: nat, f: Frame): State
    requires t < |s.threads| && s.threads[t].Call? && f.Send?
  {
    if s.requestOwner in {None, Some(t)} then
      SetTop(s, t, f.(pc := Entering)).(requestOwner := Some(t), requestDepth := s.requestDepth + 1)
    else s
  }

  /** Lines 6984-6998, with the socket mutex held. */
  function Check(s: State, t: nat, f: Frame, alive: bool): State
    requires t < |s.threads| && s.threads[t].Call? && f.Send?
  {
    var r := s.(shouldClose := false);
    if s.socket.Some? && alive then SetTop(r, t, f.(pc := Marking))
    else SetTop(r, t, f.(pc := Connecting)).(socket := None)
  }

  /**
   Lines 7000-7016 and 3360-3368. A connection resets the error. Without one the request ends here,
   uncounted: connecting failed, with an error of its own or before any was set, or it succeeded and a
   proxy or the TLS handshake did not; a proxy's answer can count as a success.
   */
  function Connect(s: State, t: nat, f: Frame, connected: bool, ret: bool, keeps: bool): State
    requires t < |s.threads| && s.threads[t].Call? && f.Send?
  {
    if connected then
      SetTop(s, t, f.(pc := Marking)).(
        socket := Some(s.created), created := s.created + 1, errs := Hold(s.errs, f.variable, false))
    else
      SetTop(s, t, f.(pc := Unlocking(ret))).(
        errs := Hold(s.errs, f.variable, f.variable in s.errs && keeps && !ret))
  }

  /** Lines 7022-7026. */
  function Mark(s: State, t: nat, f: Frame): State
    requires t < |s.threads| && s.threads[t].Call? && f.Send?
  {
    SetTop(s, t, f.(pc := Marked)).(inFlight := s.inFlight + 1, fromThread := Some(t))
  }

  /** Lines 7041-7045. */
  function Unmark(s: State, t: nat, f: Frame): State
    requires t < |s.threads| && s.threads[t].Call? && f.Send? && f.pc.Unmarking?
  {
    var left := if s.inFlight > 0 then s.inFlight - 1 else 0;
    SetTop(s, t, f.(pc := Ending(f.pc.ret, f.pc.hangUp))).(
      inFlight := left, fromThread := if left == 0 then None else s.fromThread)
  }

  /** Lines 7047-7052. */
  function End(s: State, t: nat, f: Frame): State
    requires t < |s.threads| && s.threads[t].Call? && f.Send? && f.pc.Ending?
  {
    SetTop(s, t, f.(pc := Unlocking(f.pc.ret))).(
      socket := if s.shouldClose || f.pc.hangUp || !f.pc.ret then None else s.socket)
  }

  /** Lines 6970-6974: try once more, or give the request mutex back and return. */
  function Return(s: State, t: nat, f: Frame): State
    requires t < |s.threads| && s.threads[t].Call? && f.Send? && f.pc.Done?
  {
    if f.variable in s.errs && !f.second then SetTop(s, t, f.(pc := Entering, second := true))
    else
      var depth := if s.requestDepth > 0 then s.requestDepth - 1 else 0;
      SetStack(s, t, Caller(f, s.threads[t].below)).(
        requestDepth := depth, requestOwner := if depth == 0 then None else s.requestOwner)
  }

  /** What is left on the stack: a call that followed an answer has the result of what it made. */
  function Caller(f: Frame, below: Calls): Calls
    requires f.Send? && f.pc.Done?
  {
    if f.own && below.Call? && below.top.Send?
    then Call(below.top.(pc := Answered(f.pc.ret)), below.below) else below
  }

  /** Lines 8066-8087, with the socket mutex held. */
  function Decide(s: State, t: nat): State
    requires t < |s.threads| && s.threads[t].Call?
  {
    if s.inFlight > 0 then SetTop(s, t, Stop(Decided)).(shouldClose := true)
    else SetTop(s, t, Stop(Decided)).(socket := None)
  }

  function LockSocket(s: State, t: nat, f: Frame): State
    requires t < |s.threads| && s.threads[t].Call?
  {
    if s.socketOwner.None? then SetTop(s, t, f).(socketOwner := Some(t)) else s
  }

  predicate IsOpening(pc: SendPc) {
    pc.Waiting? || pc.Entering? || pc.Checking? || pc.Connecting? || pc.Marking? || pc.Marked?
  }

  predicate IsInner(pc: SendPc) {
    pc.Processing? || pc.Answered? || pc.AskingToClose? || pc.ClosingInside? || pc.ClosedInside?
  }

  /** From the call up to the request. */
  function StepOpening(s: State, t: nat, f: Frame, a: Answer): State
    requires t < |s.threads| && s.threads[t].Call? && f.Send? && IsOpening(f.pc)
  {
    match f.pc
    case Waiting => TakeRequestMutex(s, t, f)
    case Entering => LockSocket(s, t, f.(pc := Checking))
    case Checking => Check(s, t, f, a.alive)
    case Connecting => Connect(s, t, f, a.alive, a.ret, a.err)
    case Marking => Mark(s, t, f)
    case Marked => SetTop(s, t, f.(pc := Processing)).(socketOwner := None)
  }

  /** Inside the request. A success keeps the error it finds, or resets it; only a failure sets it. */
  function StepInner(s: State, t: nat, f: Frame, a: Answer): State
    requires t < |s.threads| && s.threads[t].Call? && f.Send? && IsInner(f.pc)
  {
    match f.pc
    case Processing =>
      SetTop(s, t, f.(pc := Finishing(a.ret, a.hangUp))).(errs :=
        Hold(s.errs, f.variable, a.err && (f.variable in s.errs || (!a.ret && s.config.ssl))))
    case Answered(ret) => SetTop(s, t, f.(pc := Finishing(ret, a.hangUp)))
    case AskingToClose => LockSocket(s, t, f.(pc := ClosingInside))
    case ClosingInside => SetTop(s, t, f.(pc := ClosedInside)).(socket := None)
    case ClosedInside => SetTop(s, t, f.(pc := Processing)).(socketOwner := None)
  }

  /** From the end of the request to the return. */
  function StepClosing(s: State, t: nat, f: Frame): State
    requires t < |s.threads| && s.threads[t].Call? && f.Send? && !IsOpening(f.pc) && !IsInner(f.pc)
  {
    match f.pc
    case Finishing(ret, hangUp) => LockSocket(s, t, f.(pc := Unmarking(ret, hangUp)))
    case Unmarking(_, _) => Unmark(s, t, f)
    case Ending(_, _) => End(s, t, f)
    case Unlocking(ret) => SetTop(s, t, f.(pc := Done(ret))).(socketOwner := None)
    case Done(_) => Return(s, t, f)
  }

  function StepSend(s: State, t: nat, f: Frame, a: Answer): State
    requires t < |s.threads| && s.threads[t].Call? && f.Send?
  {
    if IsOpening(f.pc) then StepOpening(s, t, f, a)
    else if IsInner(f.pc) then StepInner(s, t, f, a)
    else StepClosing(s, t, f)
  }

  function StepStop(s: State, t: nat, pc: StopPc): State
    requires t < |s.threads| && s.threads[t].Call?
  {
    match pc
    case Asking => LockSocket(s, t, Stop(Deciding))
    case Deciding => Decide(s, t)
    case Decided => SetStack(s, t, s.threads[t].below).(socketOwner := None)
  }

  predicate Uses(stack: Calls, v: nat) {
    stack.Call? && ((stack.top.Send? && stack.top.variable == v) || Uses(stack.below, v))
  }

  predicate InUse(s: State, v: nat) {
    exists t | 0 <= t < |s.threads| :: Uses(s.threads[t], v)
  }

  /** Whether a call may be given variable `v`. */
  predicate MayPass(s: State, v: nat) {
    (v in s.errs ==> s.config.stale) && (InUse(s, v) ==> s.config.shares)
  }

  /** Lines 7117-7149: after an answer a redirect is followed, and after that an authorization. */
  predicate MayFollow(f: Frame) {
    f.Send? && (f.pc.Processing? || (f.pc.Answered? && f.pc.ret))
  }

  /** The client itself sends another request; what was done before may have reset the error. */
  function CallOwn(s: State, t: nat, f: Frame, keeps: bool): State
    requires t < |s.threads| && f.Send?
  {
    SetStack(s, t, Call(Send(false, true, Waiting, f.variable), s.threads[t])).(
      errs := Hold(s.errs, f.variable, f.variable in s.errs && (keeps || f.pc.Answered?)))
  }

  function Step(s: State, a: Action): State {
    if a.thread >= |s.threads| then s
    else
      var t, stack := a.thread, s.threads[a.thread];
      match a
      case CallSend(_, v) =>
        if MayCall(stack) && MayPass(s, v)
        then SetStack(s, t, Call(Send(false, false, Waiting, v), stack)) else s
      case CallAgain(_, keeps) =>
        if stack.Call? && MayFollow(stack.top) then CallOwn(s, t, stack.top, keeps) else s
      case Assign(_, v, error) =>
        if InUse(s, v) && !s.config.shares then s else s.(errs := Hold(s.errs, v, error))
      case CallStop(_) => if MayCall(stack) then SetStack(s, t, Call(Stop(Asking), stack)) else s
      case CloseInside(_) =>
        if stack.Call? && IsProcessing(stack.top) then SetTop(s, t, stack.top.(pc := AskingToClose)) else s
      case Advance(_, answer) =>
        if stack.Idle? then s
        else match stack.top
          case Send(_, _, _, _) => StepSend(s, t, stack.top, answer)
          case Stop(pc) => StepStop(s, t, pc)
  }

  function Run(s: State, acts: seq<Action>): State
    decreases |acts|
  {
    if acts == [] then s else Step(Run(s, acts[..|acts| - 1]), acts[|acts| - 1])
  }

  // ----- the invariant

  predicate HoldsRequest(f: Frame) {
    f.Send? && !f.pc.Waiting?
  }

  predicate HoldsSocket(f: Frame) {
    if f.Stop? then !f.stopPc.Asking?
    else
      || f.pc.Checking? || f.pc.Connecting? || f.pc.Marking? || f.pc.Marked?
      || f.pc.ClosingInside? || f.pc.ClosedInside?
      || f.pc.Unmarking? || f.pc.Ending? || f.pc.Unlocking?
  }

  /** Between the two changes of the count. */
  predicate IsActive(f: Frame) {
    && f.Send?
    && (|| f.pc.Marked? || f.pc.Processing? || f.pc.Finishing? || f.pc.Unmarking?
        || f.pc.AskingToClose? || f.pc.ClosingInside? || f.pc.ClosedInside? || f.pc.Answered?)
  }

  function Held(stack: Calls): nat {
    if stack.Idle? then 0 else Held(stack.below) + if HoldsRequest(stack.top) then 1 else 0
  }

  /** How many calls of send_ on this stack are active. */
  function Active(stack: Calls): nat {
    if stack.Idle? then 0 else Active(stack.below) + if IsActive(stack.top) then 1 else 0
  }

  /** Whatever called another method of the client is processing a request. */
  predicate StackOk(stack: Calls) {
    stack.Call? ==> StackOk(stack.below) && (stack.below.Call? ==> IsCalling(stack.below.top))
  }

  ghost predicate MutexesOk(s: State) {
    && (forall t | 0 <= t < |s.threads| :: StackOk(s.threads[t]))
    && (forall t | 0 <= t < |s.threads| ::
          Held(s.threads[t]) == if s.requestOwner == Some(t) then s.requestDepth else 0)
    && (s.requestOwner.Some? <==> s.requestDepth > 0)
    && (s.requestOwner.Some? ==> s.requestOwner.value < |s.threads|)
    && (s.socketOwner.Some? ==> s.socketOwner.value < |s.threads|)
    && (forall t | 0 <= t < |s.threads| ::
          (s.threads[t].Call? && HoldsSocket(s.threads[t].top)) <==> s.socketOwner == Some(t))
  }

  function OwnersStack(s: State): Calls {
    if s.requestOwner.Some? && s.requestOwner.value < |s.threads| then s.threads[s.requestOwner.value] else Idle
  }

  /** The count is that of the request owner's active calls, and names that thread while it is positive. */
  ghost predicate CountOk(s: State) {
    && s.inFlight == Active(OwnersStack(s))
    && s.fromThread == if s.inFlight == 0 then None else s.requestOwner
  }

  /** With nothing in flight, a stop that no later request has overridden leaves no socket open. */
  ghost predicate StopOk(s: State) {
    s.shouldClose && s.inFlight == 0 && s.socket.Some? ==> OwnersStack(s).Call? && IsEnding(OwnersStack(s).top)
  }

  predicate IsEnding(f: Frame) {
    f.Send? && f.pc.Ending?
  }

  predicate IsConnecting(f: Frame) {
    f.Send? && f.pc.Connecting?
  }

  /** A new socket never takes the place of an open one, nor comes under an old request to stop. */
  ghost predicate NoLeak(s: State) {
    forall t | 0 <= t < |s.threads| && s.threads[t].Call? && IsConnecting(s.threads[t].top) ::
      s.socket.None? && !s.shouldClose
  }

  ghost predicate Inv(s: State) {
    MutexesOk(s) && CountOk(s) && StopOk(s) && NoLeak(s)
  }

  // ----- every step keeps it

  lemma {:induction false} ActiveIsHeld(stack: Calls)
    ensures Active(stack) <= Held(stack)
  {
    if stack.Call? {
      ActiveIsHeld(stack.below);
    }
  }

  /**
   A step of thread `t` that replaces its stack: the mutexes and the count stay right if they change as
   the stack does.
   */
  lemma StackStep(s: State, r: State, t: nat, stack: Calls)
    requires MutexesOk(s) && CountOk(s) && t < |s.threads|
    requires r.threads == s.threads[t := stack] && StackOk(stack)
    requires r.requestOwner == s.requestOwner || (s.requestOwner.None? && r.requestOwner == Some(t))
             || (r.requestOwner.None? && s.requestOwner == Some(t))
    requires r.requestOwner.Some? <==> r.requestDepth > 0
    requires r.requestOwner != Some(t) && s.requestOwner != Some(t) ==> r.requestDepth == s.requestDepth
    requires Held(stack) == if r.requestOwner == Some(t) then r.requestDepth else 0
    requires stack.Call? && HoldsSocket(stack.top) <==> r.socketOwner == Some(t)
    requires r.socketOwner == s.socketOwner || (s.socketOwner.None? && r.socketOwner == Some(t))
             || (r.socketOwner.None? && s.socketOwner == Some(t))
    requires r.inFlight + Active(s.threads[t]) == s.inFlight + Active(stack)
    requires r.fromThread == if r.inFlight == s.inFlight then s.fromThread else if r.inFlight == 0 then None else Some(t)
    ensures MutexesOk(r) && CountOk(r)
  {
    ActiveIsHeld(s.threads[t]);
    ActiveIsHeld(stack);
    forall u | 0 <= u < |r.threads| && u != t
      ensures r.threads[u] == s.threads[u]
    {
    }
  }

  lemma TopStep(s: State, r: State, t: nat, f: Frame)
    requires MutexesOk(s) && CountOk(s) && t < |s.threads| && s.threads[t].Call?
    requires r.threads == s.threads[t := Call(f, s.threads[t].below)]
    requires r.requestOwner == s.requestOwner && r.requestDepth == s.requestDepth
    requires HoldsRequest(f) == HoldsRequest(s.threads[t].top)
    requires HoldsSocket(f) <==> r.socketOwner == Some(t)
    requires r.socketOwner == s.socketOwner || (s.socketOwner.None? && r.socketOwner == Some(t))
             || (r.socketOwner.None? && s.socketOwner == Some(t))
    requires r.inFlight + (if IsActive(s.threads[t].top) then 1 else 0) == s.inFlight + if IsActive(f) then 1 else 0
    requires r.fromThread == if r.inFlight == s.inFlight then s.fromThread else if r.inFlight == 0 then None else Some(t)
    ensures MutexesOk(r) && CountOk(r)
  {
    var stack := s.threads[t];
    StackStep(s, r, t, Call(f, stack.below));
  }

  /** The steps of send_ that only move the frame on and take or give back the socket mutex. */
  lemma OpeningSend(s: State, t: nat, f: Frame, a: Answer)
    requires MutexesOk(s) && CountOk(s) && t < |s.threads| && s.threads[t].Call? && f == s.threads[t].top && f.Send?
    requires f.pc.Entering? || f.pc.Marked?
    ensures MutexesOk(StepOpening(s, t, f, a)) && CountOk(StepOpening(s, t, f, a))
  {
    var r := StepOpening(s, t, f, a);
    if r != s {
      TopStep(s, r, t, r.threads[t].top);
    }
  }

  lemma CheckSend(s: State, t: nat, f: Frame, alive: bool)
    requires MutexesOk(s) && CountOk(s) && t < |s.threads| && s.threads[t].Call? && f == s.threads[t].top && f.Send?
    requires f.pc.Checking?
    ensures MutexesOk(Check(s, t, f, alive)) && CountOk(Check(s, t, f, alive))
  {
    var r := Check(s, t, f, alive);
    TopStep(s, r, t, r.threads[t].top);
  }

  lemma ConnectSend(s: State, t: nat, f: Frame, connected: bool, ret: bool, keeps: bool)
    requires MutexesOk(s) && CountOk(s) && t < |s.threads| && s.threads[t].Call? && f == s.threads[t].top && f.Send?
    requires f.pc.Connecting?
    ensures MutexesOk(Connect(s, t, f, connected, ret, keeps)) && CountOk(Connect(s, t, f, connected, ret, keeps))
  {
    var r := Connect(s, t, f, connected, ret, keeps);
    TopStep(s, r, t, r.threads[t].top);
  }

  lemma InnerSend(s: State, t: nat, f: Frame, a: Answer)
    requires MutexesOk(s) && CountOk(s) && t < |s.threads| && s.threads[t].Call? && f == s.threads[t].top && f.Send?
    requires IsInner(f.pc)
    ensures MutexesOk(StepInner(s, t, f, a)) && CountOk(StepInner(s, t, f, a))
  {
    var r := StepInner(s, t, f, a);
    if r != s {
      TopStep(s, r, t, r.threads[t].top);
    }
  }

  lemma ClosingSend(s: State, t: nat, f: Frame)
    requires MutexesOk(s) && CountOk(s) && t < |s.threads| && s.threads[t].Call? && f == s.threads[t].top && f.Send?
    requires f.pc.Finishing? || f.pc.Ending? || f.pc.Unlocking?
    ensures MutexesOk(StepClosing(s, t, f)) && CountOk(StepClosing(s, t, f))
  {
    var r := StepClosing(s, t, f);
    if r != s {
      TopStep(s, r, t, r.threads[t].top);
    }
  }

  lemma MarkSend(s: State, t: nat, f: Frame)
    requires MutexesOk(s) && CountOk(s) && t < |s.threads| && s.threads[t].Call? && f == s.threads[t].top && f.Send?
    requires f.pc.Marking?
    ensures MutexesOk(Mark(s, t, f)) && CountOk(Mark(s, t, f))
  {
    assert Held(s.threads[t]) > 0 && s.requestOwner == Some(t);
    TopStep(s, Mark(s, t, f), t, f.(pc := Marked));
  }

  lemma UnmarkSend(s: State, t: nat, f: Frame)
    requires MutexesOk(s) && CountOk(s) && t < |s.threads| && s.threads[t].Call? && f == s.threads[t].top && f.Send?
    requires f.pc.Unmarking?
    ensures MutexesOk(Unmark(s, t, f)) && CountOk(Unmark(s, t, f)) && s.inFlight > 0
  {
    assert Held(s.threads[t]) > 0 && s.requestOwner == Some(t);
    TopStep(s, Unmark(s, t, f), t, f.(pc := Ending(f.pc.ret, f.pc.hangUp)));
  }

  lemma WaitingSend(s: State, t: nat, f: Frame)
    requires MutexesOk(s) && CountOk(s) && t < |s.threads| && s.threads[t].Call? && f == s.threads[t].top && f.Send?
    requires f.pc.Waiting?
    ensures MutexesOk(TakeRequestMutex(s, t, f)) && CountOk(TakeRequestMutex(s, t, f))
  {
    var r := TakeRequestMutex(s, t, f);
    if r != s {
      StackStep(s, r, t, Call(f.(pc := Entering), s.threads[t].below));
    }
  }

  lemma CallerCounts(f: Frame, below: Calls)
    requires f.Send? && f.pc.Done? && StackOk(below) && (below.Call? ==> IsCalling(below.top))
    ensures var caller := Caller(f, below);
            StackOk(caller) && Held(caller) == Held(below) && Active(caller) == Active(below)
            && (caller.Call? ==> IsCalling(caller.top))
  {
  }

  lemma ReturnSend(s: State, t: nat, f: Frame)
    requires MutexesOk(s) && CountOk(s) && t < |s.threads| && s.threads[t].Call? && f == s.threads[t].top && f.Send?
    requires f.pc.Done?
    ensures MutexesOk(Return(s, t, f)) && CountOk(Return(s, t, f))
  {
    var r := Return(s, t, f);
    if f.variable in s.errs && !f.second {
      TopStep(s, r, t, f.(pc := Entering, second := true));
    } else {
      var below := s.threads[t].below;
      CallerCounts(f, below);
      ActiveIsHeld(below);
      StackStep(s, r, t, r.threads[t]);
    }
  }

  /** Any step of a call of send_. */
  lemma SendMutexes(s: State, t: nat, f: Frame, a: Answer)
    requires MutexesOk(s) && CountOk(s) && t < |s.threads| && s.threads[t].Call? && f == s.threads[t].top && f.Send?
    ensures MutexesOk(StepSend(s, t, f, a)) && CountOk(StepSend(s, t, f, a))
  {
    if f.pc.Waiting? {
      WaitingSend(s, t, f);
    } else if f.pc.Marking? {
      MarkSend(s, t, f);
    } else if f.pc.Checking? {
      CheckSend(s, t, f, a.alive);
    } else if f.pc.Connecting? {
      ConnectSend(s, t, f, a.alive, a.ret, a.err);
    } else if IsOpening(f.pc) {
      OpeningSend(s, t, f, a);
    } else if IsInner(f.pc) {
      InnerSend(s, t, f, a);
    } else if f.pc.Done? {
      ReturnSend(s, t, f);
    } else if f.pc.Unmarking? {
      UnmarkSend(s, t, f);
    } else {
      ClosingSend(s, t, f);
    }
  }

  lemma StopCalls(s: State, t: nat, pc: StopPc)
    requires MutexesOk(s) && CountOk(s) && t < |s.threads| && s.threads[t].Call? && s.threads[t].top == Stop(pc)
    ensures MutexesOk(StepStop(s, t, pc)) && CountOk(StepStop(s, t, pc))
  {
    var r := StepStop(s, t, pc);
    if pc.Decided? {
      StackStep(s, r, t, s.threads[t].below);
    } else if r != s {
      TopStep(s, r, t, r.threads[t].top);
    }
  }

  lemma NewCall(s: State, t: nat, f: Frame)
    requires MutexesOk(s) && CountOk(s) && t < |s.threads|
    requires s.threads[t].Call? ==> IsCalling(s.threads[t].top)
    requires !HoldsRequest(f) && !HoldsSocket(f) && !IsActive(f)
    ensures MutexesOk(SetStack(s, t, Call(f, s.threads[t]))) && CountOk(SetStack(s, t, Call(f, s.threads[t])))
  {
    StackStep(s, SetStack(s, t, Call(f, s.threads[t])), t, Call(f, s.threads[t]));
  }

  lemma StepMutexes(s: State, a: Action)
    requires MutexesOk(s) && CountOk(s)
    ensures MutexesOk(Step(s, a)) && CountOk(Step(s, a))
  {
    if Step(s, a) != s {
      var t, stack := a.thread, s.threads[a.thread];
      match a
      case CallSend(_, v) => NewCall(s, t, Send(false, false, Waiting, v));
      case CallAgain(_, keeps) => NewCall(s, t, Send(false, true, Waiting, stack.top.variable));
      case Assign(_, _, _) =>
      case CallStop(_) => NewCall(s, t, Stop(Asking));
      case CloseInside(_) => TopStep(s, Step(s, a), t, stack.top.(pc := AskingToClose));
      case Advance(_, answer) =>
        if stack.top.Stop? {
          StopCalls(s, t, stack.top.stopPc);
        } else {
          SendMutexes(s, t, stack.top, answer);
        }
    }
  }

  // ----- what any step may change

  /**
   A step of thread `t` changes that thread's stack only, the request owner only to or from itself, and the
   socket, the flag and the count only inside its critical section; a connection is only begun without a
   socket and without a request to stop.
   */
  ghost predicate Effect(s: State, r: State, t: nat) {
    r == s.(errs := r.errs) ||
      (&& t < |s.threads| == |r.threads|
       && r.threads == s.threads[t := r.threads[t]]
       && r.config == s.config
       && (r.requestOwner == s.requestOwner || s.requestOwner in {None, Some(t)})
       && (SameSocket(s, r) || (s.threads[t].Call? && HoldsSocket(s.threads[t].top)))
       && (r.threads[t].Call? && IsConnecting(r.threads[t].top) ==> r.socket.None? && !r.shouldClose))
  }

  predicate SameSocket(s: State, r: State) {
    r.socket == s.socket && r.shouldClose == s.shouldClose && r.inFlight == s.inFlight
  }

  /** Looking at the socket, and opening one. */
  lemma SocketEffect(s: State, t: nat, f: Frame, a: Answer)
    requires t < |s.threads| && s.threads[t].Call? && f == s.threads[t].top && f.Send?
    requires f.pc.Checking? || f.pc.Connecting?
    ensures Effect(s, StepOpening(s, t, f, a), t)
  {
  }

  lemma OpeningEffect(s: State, t: nat, f: Frame, a: Answer)
    requires t < |s.threads| && s.threads[t].Call? && f == s.threads[t].top && f.Send?
    requires IsOpening(f.pc) && !f.pc.Checking? && !f.pc.Connecting?
    ensures Effect(s, StepOpening(s, t, f, a), t)
  {
  }

  lemma InnerEffect(s: State, t: nat, f: Frame, a: Answer)
    requires t < |s.threads| && s.threads[t].Call? && f == s.threads[t].top && f.Send? && IsInner(f.pc)
    ensures Effect(s, StepInner(s, t, f, a), t)
  {
  }

  lemma ClosingEffect(s: State, t: nat, f: Frame)
    requires t < |s.threads| && s.threads[t].Call? && f == s.threads[t].top && f.Send?
    requires !IsOpening(f.pc) && !IsInner(f.pc) && !f.pc.Done?
    ensures Effect(s, StepClosing(s, t, f), t)
  {
  }

  lemma ReturnEffect(s: State, t: nat, f: Frame)
    requires t < |s.threads| && s.threads[t].Call? && f == s.threads[t].top && f.Send? && f.pc.Done?
    requires StackOk(s.threads[t]) && s.requestOwner == Some(t)
    ensures Effect(s, Return(s, t, f), t)
  {
    assert s.threads[t].below.Call? ==> StackOk(s.threads[t].below);
  }

  lemma StopEffect(s: State, t: nat, pc: StopPc)
    requires t < |s.threads| && s.threads[t].Call? && s.threads[t].top == Stop(pc) && StackOk(s.threads[t])
    ensures Effect(s, StepStop(s, t, pc), t)
  {
  }

  lemma StepEffect(s: State, a: Action)
    requires MutexesOk(s)
    ensures Effect(s, Step(s, a), a.thread)
  {
    if a.Advance? && a.thread < |s.threads| && s.threads[a.thread].Call? {
      var t, f := a.thread, s.threads[a.thread].top;
      if f.Stop? {
        StopEffect(s, t, f.stopPc);
      } else if f.pc.Checking? || f.pc.Connecting? {
        SocketEffect(s, t, f, a.answer);
      } else if IsOpening(f.pc) {
        OpeningEffect(s, t, f, a.answer);
      } else if IsInner(f.pc) {
        InnerEffect(s, t, f, a.answer);
      } else if f.pc.Done? {
        assert Held(s.threads[t]) > 0;
        ReturnEffect(s, t, f);
      } else {
        ClosingEffect(s, t, f);
      }
    }
  }

  lemma StepNoLeak(s: State, a: Action)
    requires MutexesOk(s) && NoLeak(s)
    ensures NoLeak(Step(s, a))
  {
    StepEffect(s, a);
    EffectNoLeak(s, Step(s, a), a.thread);
  }

  lemma EffectNoLeak(s: State, r: State, actor: nat)
    requires MutexesOk(s) && NoLeak(s) && Effect(s, r, actor)
    ensures NoLeak(r)
  {
    forall t | 0 <= t < |r.threads| && r.threads[t].Call? && IsConnecting(r.threads[t].top)
      ensures r.socket.None? && !r.shouldClose
    {
      if r != s.(errs := r.errs) && t != actor {
        assert r.threads[t] == s.threads[t] && HoldsSocket(s.threads[t].top);
      }
    }
  }

  /** A thread in its critical section, and none else, can change what the stop invariant speaks of. */
  lemma InsideStopOk(s: State, t: nat, f: Frame, a: Answer)
    requires Inv(s) && t < |s.threads| && s.threads[t].Call? && f == s.threads[t].top && f.Send? && HoldsSocket(f)
    ensures StopOk(StepSend(s, t, f, a))
  {
    assert Held(s.threads[t]) > 0;
    if f.pc.Unmarking? {
      assert OwnersStack(Unmark(s, t, f)) == Call(f.(pc := Ending(f.pc.ret, f.pc.hangUp)), s.threads[t].below);
    } else if IsOpening(f.pc) {
      OpeningStopOk(s, t, f, a);
    }
  }

  lemma OpeningStopOk(s: State, t: nat, f: Frame, a: Answer)
    requires Inv(s) && t < |s.threads| && s.threads[t].Call? && f == s.threads[t].top && f.Send? && HoldsSocket(f)
    requires IsOpening(f.pc)
    ensures StopOk(StepOpening(s, t, f, a))
  {
    assert Held(s.threads[t]) > 0;
    assert IsConnecting(f) ==> !s.shouldClose;
  }

  lemma StepStopOk(s: State, a: Action)
    requires Inv(s)
    ensures StopOk(Step(s, a))
  {
    StepEffect(s, a);
    var t := a.thread;
    if t < |s.threads| && s.threads[t].Call? && HoldsSocket(s.threads[t].top) {
      if a.Assign? {
        assert Step(s, a) == s.(errs := Step(s, a).errs);
      } else if a.Advance? && s.threads[t].top.Send? {
        InsideStopOk(s, t, s.threads[t].top, a.answer);
      }
    } else {
      OutsideStopOk(s, Step(s, a), t);
    }
  }

  lemma OutsideStopOk(s: State, r: State, actor: nat)
    requires MutexesOk(s) && StopOk(s) && Effect(s, r, actor)
    requires actor < |s.threads| && s.threads[actor].Call? ==> !HoldsSocket(s.threads[actor].top)
    ensures StopOk(r)
  {
    if s.shouldClose && s.inFlight == 0 && s.socket.Some? && r != s.(errs := r.errs) {
      var t := s.requestOwner.value;
      assert HoldsSocket(s.threads[t].top) && t != actor;
    }
  }

  lemma StepInv(s: State, a: Action)
    requires Inv(s)
    ensures Inv(Step(s, a))
  {
    StepMutexes(s, a);
    StepNoLeak(s, a);
    StepStopOk(s, a);
  }
}
