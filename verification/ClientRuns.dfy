/** What holds in every run of the client's locking protocol. */
module ClientRuns {
  import opened Basics
  import opened ClientSocket

  lemma {:induction false} RunInv(config: Config, threads: nat, acts: seq<Action>)
    ensures var s := Run(Init(config, threads), acts);
            Inv(s) && |s.threads| == threads && s.config == config
    decreases |acts|
  {
    if acts != [] {
      var before, last := acts[..|acts| - 1], acts[|acts| - 1];
      RunInv(config, threads, before);
      StepInv(Run(Init(config, threads), before), last);
      StepEffect(Run(Init(config, threads), before), last);
    }
  }

  /** The steps that close the socket, with the check that closing is safe. */
  predicate Closing(s: State, a: Action) {
    && a.Advance? && a.thread < |s.threads| && s.threads[a.thread].Call?
    && match s.threads[a.thread].top
       case Stop(pc) => pc.Deciding? && s.inFlight == 0
       case Send(_, _, pc, _) =>
         || (pc.Checking? && s.socket.Some? && !a.answer.alive)
         || (pc.Connecting? && !a.answer.alive)
         || pc.ClosingInside?
         || (pc.Ending? && (s.shouldClose || pc.hangUp || !pc.ret))
  }

  /** How a step may change the socket: by closing it, or by opening a new one. */
  ghost predicate SocketOk(s: State, r: State, closing: bool) {
    && (s.socket.Some? && r.socket != s.socket ==> r.socket.None? && closing)
    && (s.socket.None? && r.socket != s.socket ==> r.socket == Some(s.created) && r.created == s.created + 1)
  }

  lemma OpeningSocket(s: State, t: nat, f: Frame, a: Answer)
    requires t < |s.threads| && s.threads[t].Call? && f == s.threads[t].top && f.Send? && IsOpening(f.pc)
    requires f.pc.Connecting? ==> s.socket.None?
    ensures SocketOk(s, StepOpening(s, t, f, a), Closing(s, Advance(t, a)))
  {
  }

  lemma SendSocket(s: State, t: nat, f: Frame, a: Answer)
    requires t < |s.threads| && s.threads[t].Call? && f == s.threads[t].top && f.Send?
    requires f.pc.Connecting? ==> s.socket.None?
    ensures SocketOk(s, StepSend(s, t, f, a), Closing(s, Advance(t, a)))
  {
    if IsOpening(f.pc) {
      OpeningSocket(s, t, f, a);
    }
  }

  /** An open socket is closed by such a step, and only a new one ever follows a closed one. */
  lemma SocketChanges(config: Config, threads: nat, acts: seq<Action>, a: Action)
    ensures var s := Run(Init(config, threads), acts);
            SocketOk(s, Step(s, a), Closing(s, a))
  {
    RunInv(config, threads, acts);
    var s := Run(Init(config, threads), acts);
    if a.Advance? && a.thread < |s.threads| && s.threads[a.thread].Call? && s.threads[a.thread].top.Send? {
      assert IsConnecting(s.threads[a.thread].top) ==> s.socket.None?;
      SendSocket(s, a.thread, s.threads[a.thread].top, a.answer);
    }
  }

  /** The count of requests in flight is that of the calls the request mutex's holder is inside of. */
  lemma CountIsActiveCalls(config: Config, threads: nat, acts: seq<Action>, t: nat)
    requires t < threads
    ensures var s := Run(Init(config, threads), acts);
            && |s.threads| == threads
            && s.inFlight == Active(OwnersStack(s))
            && (s.requestOwner != Some(t) ==> Active(s.threads[t]) == 0)
            && s.fromThread == if s.inFlight == 0 then None else s.requestOwner
  {
    RunInv(config, threads, acts);
    ActiveIsHeld(Run(Init(config, threads), acts).threads[t]);
  }

  /** A socket is closed only while no other thread has a request on it. */
  lemma ClosesOnlyItsOwn(config: Config, threads: nat, acts: seq<Action>, a: Action, u: nat)
    requires Closing(Run(Init(config, threads), acts), a)
    requires u < threads && u != a.thread
    ensures var s := Run(Init(config, threads), acts);
            && (s.inFlight == 0 || s.fromThread == Some(a.thread))
            && |s.threads| == threads && Active(s.threads[u]) == 0
  {
    RunInv(config, threads, acts);
    var s := Run(Init(config, threads), acts);
    ActiveIsHeld(s.threads[u]);
    ActiveIsHeld(s.threads[a.thread]);
    if s.threads[a.thread].top.Send? {
      assert Held(s.threads[a.thread]) > 0;
    }
    if s.inFlight == 0 && s.requestOwner.Some? {
      assert Active(s.threads[s.requestOwner.value]) == 0;
    }
  }

  /** The count names the calling thread where it is already positive, and never drops below zero. */
  lemma CountingIsSafe(config: Config, threads: nat, acts: seq<Action>, t: nat)
    requires t < threads
    ensures var s := Run(Init(config, threads), acts);
            |s.threads| == threads &&
            (s.threads[t].Call? && s.threads[t].top.Send? ==>
               && (s.threads[t].top.pc.Marking? && s.inFlight > 0 ==> s.fromThread == Some(t))
               && (s.threads[t].top.pc.Unmarking? ==> s.inFlight > 0))
  {
    RunInv(config, threads, acts);
    var s := Run(Init(config, threads), acts);
    if s.threads[t].Call? && s.threads[t].top.Send? && HoldsRequest(s.threads[t].top) {
      assert Held(s.threads[t]) > 0 && s.requestOwner == Some(t);
    }
  }

  // ----- stops

  /** Line 6983: a request begins to look at the socket, and forgets that it was asked to close it. */
  predicate IsCheck(s: State, a: Action) {
    && a.Advance? && a.thread < |s.threads| && s.threads[a.thread].Call?
    && s.threads[a.thread].top.Send? && s.threads[a.thread].top.pc.Checking?
  }

  predicate NoCheck(s: State, acts: seq<Action>)
    decreases |acts|
  {
    acts != [] ==> NoCheck(s, acts[..|acts| - 1]) && !IsCheck(Run(s, acts[..|acts| - 1]), acts[|acts| - 1])
  }

  /** Line 8074: a stop finds requests in flight. */
  predicate Stops(s: State, a: Action) {
    && a.Advance? && a.thread < |s.threads| && s.threads[a.thread].Call?
    && s.threads[a.thread].top == Stop(Deciding) && s.inFlight > 0
  }

  lemma StopStands(s: State, a: Action)
    requires s.shouldClose && !IsCheck(s, a)
    ensures Step(s, a).shouldClose
  {
  }

  lemma {:induction false} StopStaysAsked(s: State, acts: seq<Action>)
    requires Inv(s) && s.shouldClose && NoCheck(s, acts)
    ensures Inv(Run(s, acts)) && Run(s, acts).shouldClose
    decreases |acts|
  {
    if acts != [] {
      var before, last := acts[..|acts| - 1], acts[|acts| - 1];
      StopStaysAsked(s, before);
      StepInv(Run(s, before), last);
      StopStands(Run(s, before), last);
    }
  }

  /** A stop during a request has closed the socket as soon as nothing is in flight, unless another request has
      looked at the socket in between. */
  lemma StopIsHonoured(config: Config, threads: nat, before: seq<Action>, stop: Action, after: seq<Action>)
    requires Stops(Run(Init(config, threads), before), stop)
    requires NoCheck(Step(Run(Init(config, threads), before), stop), after)
    ensures var s := Run(Step(Run(Init(config, threads), before), stop), after);
            s.shouldClose && (s.inFlight == 0 && s.socketOwner.None? ==> s.socket.None?)
  {
    RunInv(config, threads, before);
    StepInv(Run(Init(config, threads), before), stop);
    StopStaysAsked(Step(Run(Init(config, threads), before), stop), after);
    var s := Run(Step(Run(Init(config, threads), before), stop), after);
    if s.inFlight == 0 && s.socket.Some? {
      assert HoldsSocket(s.threads[s.requestOwner.value].top);
    }
  }

  /** While requests are in flight, only a request made inside one of them looks at the socket: from a callback,
      or for a redirect or an authorization. */
  lemma OnlyInnerRequestsOverride(config: Config, threads: nat, acts: seq<Action>, a: Action)
    requires IsCheck(Run(Init(config, threads), acts), a) && Run(Init(config, threads), acts).inFlight > 0
    ensures var s := Run(Init(config, threads), acts);
            && s.fromThread == Some(a.thread)
            && s.threads[a.thread].below.Call? && IsCalling(s.threads[a.thread].below.top)
  {
    RunInv(config, threads, acts);
    var stack := Run(Init(config, threads), acts).threads[a.thread];
    assert Held(stack) > 0 && StackOk(stack);
    assert Active(stack) == Active(stack.below);
  }

  // ----- nothing gets stuck

  lemma OpeningHolds(s: State, t: nat, f: Frame, a: Answer)
    requires t < |s.threads| && s.threads[t].Call? && f == s.threads[t].top && f.Send?
    requires IsOpening(f.pc) && HoldsSocket(f)
    ensures StepOpening(s, t, f, a) != s
  {
    assert StepOpening(s, t, f, a).threads[t].top.pc != f.pc;
  }

  lemma InnerHolds(s: State, t: nat, f: Frame, a: Answer)
    requires t < |s.threads| && s.threads[t].Call? && f == s.threads[t].top && f.Send?
    requires IsInner(f.pc) && HoldsSocket(f)
    ensures StepInner(s, t, f, a) != s
  {
    assert StepInner(s, t, f, a).threads[t].top.pc != f.pc;
  }

  lemma ClosingHolds(s: State, t: nat, f: Frame)
    requires t < |s.threads| && s.threads[t].Call? && f == s.threads[t].top && f.Send?
    requires !IsOpening(f.pc) && !IsInner(f.pc) && HoldsSocket(f)
    ensures StepClosing(s, t, f) != s
  {
    assert StepClosing(s, t, f).threads[t].top.pc != f.pc;
  }

  lemma StopHolds(s: State, t: nat, pc: StopPc)
    requires t < |s.threads| && s.threads[t].Call? && s.threads[t].top == Stop(pc) && !pc.Asking?
    requires s.socketOwner == Some(t)
    ensures StepStop(s, t, pc) != s
  {
    if pc.Deciding? {
      assert StepStop(s, t, pc).threads[t].top == Stop(Decided);
    } else {
      assert StepStop(s, t, pc).socketOwner.None?;
    }
  }

  /** The thread inside a critical section can always go on: a new call would come from outside. */
  lemma HolderCanStep(s: State, t: nat) returns (a: Action)
    requires Inv(s) && s.socketOwner == Some(t) && t < |s.threads|
    ensures a.Advance? && Step(s, a) != s
  {
    a := Advance(t, Answer(true, true, true, true));
    assert s.threads[t].Call? && HoldsSocket(s.threads[t].top);
    var f := s.threads[t].top;
    if f.Stop? {
      StopHolds(s, t, f.stopPc);
    } else if IsOpening(f.pc) {
      OpeningHolds(s, t, f, a.answer);
    } else if IsInner(f.pc) {
      InnerHolds(s, t, f, a.answer);
    } else {
      ClosingHolds(s, t, f);
    }
  }

  lemma WaitingCanStep(s: State, t: nat, f: Frame)
    requires t < |s.threads| && s.threads[t].Call? && f == s.threads[t].top && f.Send?
    requires f.pc.Waiting? && s.requestOwner in {None, Some(t)}
    ensures TakeRequestMutex(s, t, f) != s
  {
    assert TakeRequestMutex(s, t, f).requestDepth == s.requestDepth + 1;
  }

  lemma InnerCanStep(s: State, t: nat, f: Frame, a: Answer)
    requires s.socketOwner.None? && t < |s.threads| && s.threads[t].Call? && f == s.threads[t].top && f.Send?
    requires IsInner(f.pc) && !HoldsSocket(f)
    ensures StepInner(s, t, f, a) != s
  {
    assert StepInner(s, t, f, a).threads[t].top.pc != f.pc;
  }

  lemma ReturnCanStep(s: State, t: nat, f: Frame)
    requires t < |s.threads| && s.threads[t].Call? && f == s.threads[t].top && f.Send? && f.pc.Done?
    ensures Return(s, t, f) != s
  {
    if f.variable in s.errs && !f.second {
      assert Return(s, t, f).threads[t].top.pc.Entering?;
    } else {
      CallerIsOther(f, s.threads[t].below);
      assert Return(s, t, f).threads[t] != s.threads[t];
    }
  }

  lemma FreeCanStep(s: State, t: nat, f: Frame, a: Answer)
    requires s.socketOwner.None? && t < |s.threads| && s.threads[t].Call? && f == s.threads[t].top && f.Send?
    requires !HoldsSocket(f) && (f.pc.Waiting? ==> s.requestOwner in {None, Some(t)})
    ensures StepSend(s, t, f, a) != s
  {
    if f.pc.Waiting? {
      WaitingCanStep(s, t, f);
    } else if IsInner(f.pc) {
      InnerCanStep(s, t, f, a);
    } else if f.pc.Done? {
      ReturnCanStep(s, t, f);
    } else {
      assert StepSend(s, t, f, a).socketOwner == Some(t);
    }
  }

  /** A return leaves a smaller stack. */
  lemma CallerIsOther(f: Frame, below: Calls)
    requires f.Send? && f.pc.Done?
    ensures Caller(f, below) != Call(f, below)
  {
    assert Depth(Caller(f, below)) == Depth(below);
  }

  function Depth(stack: Calls): nat {
    if stack.Idle? then 0 else 1 + Depth(stack.below)
  }

  /** With the socket mutex free, a call that holds the request mutex or needs none can go on. */
  lemma CallCanStep(s: State, t: nat) returns (a: Action)
    requires Inv(s) && s.socketOwner.None? && t < |s.threads| && s.threads[t].Call?
    requires s.threads[t].top.Send? && s.threads[t].top.pc.Waiting? ==> s.requestOwner in {None, Some(t)}
    ensures a.Advance? && Step(s, a) != s
  {
    a := Advance(t, Answer(true, true, true, true));
    assert !HoldsSocket(s.threads[t].top);
    if s.threads[t].top.Send? {
      FreeCanStep(s, t, s.threads[t].top, a.answer);
    } else {
      assert Step(s, a).socketOwner == Some(t);
    }
  }

  /** As long as a call has not returned, some thread can take a step: there is no deadlock. */
  lemma SomeoneCanStep(config: Config, threads: nat, acts: seq<Action>, t: nat) returns (a: Action)
    requires t < |Run(Init(config, threads), acts).threads| && Run(Init(config, threads), acts).threads[t].Call?
    ensures a.Advance? && Step(Run(Init(config, threads), acts), a) != Run(Init(config, threads), acts)
  {
    RunInv(config, threads, acts);
    var s := Run(Init(config, threads), acts);
    if s.socketOwner.Some? {
      a := HolderCanStep(s, s.socketOwner.value);
    } else if s.threads[t].top.Send? && s.threads[t].top.pc.Waiting? && s.requestOwner.Some? {
      assert Held(s.threads[s.requestOwner.value]) > 0;
      a := CallCanStep(s, s.requestOwner.value);
    } else {
      a := CallCanStep(s, t);
    }
  }

  // ----- reachable states

  /** Nothing but this client's calls touches the callers' variables. */
  predicate NoAssign(acts: seq<Action>) {
    forall a | a in acts :: !a.Assign?
  }

  ghost predicate Reaches(s: State, r: State) {
    exists acts :: NoAssign(acts) && Run(s, acts) == r
  }

  lemma {:induction false} RunConcat(s: State, a: seq<Action>, b: seq<Action>)
    ensures Run(s, a + b) == Run(Run(s, a), b)
    decreases |b|
  {
    if b == [] {
      assert a + b == a;
    } else {
      assert (a + b)[..|a + b| - 1] == a + b[..|b| - 1];
      RunConcat(s, a, b[..|b| - 1]);
    }
  }

  /** One more step. */
  lemma Then(s: State, r: State, a: Action)
    requires Reaches(s, r) && !a.Assign?
    ensures Reaches(s, Step(r, a))
  {
    var acts :| NoAssign(acts) && Run(s, acts) == r;
    assert (acts + [a])[..|acts|] == acts;
    assert NoAssign(acts + [a]) && Run(s, acts + [a]) == Step(r, a);
  }

  lemma FromHere(s: State)
    ensures Reaches(s, s)
  {
    assert NoAssign([]) && Run(s, []) == s;
  }
}
