/**
 Whole requests as schedules of steps, for the runs that show how a promise can fail. Thread 0 acts; the
 others stay where they are.
 */
module ClientSchedules {
  import opened Basics
  import opened ClientSocket
  import opened ClientRuns

  /** What there is beside the call that thread 0 makes: the other threads, the calls below it, the socket,
      whether it was asked to close it, and the variables that hold the error. */
  datatype Scene = Scene(
    config: Config, others: seq<Calls>, below: Calls, socket: Option<nat>, created: nat, asked: bool, errs: set<nat>)

  /** Thread 0 is inside the call `f`, which counts as a request in flight or not. */
  function At(w: Scene, f: Frame, active: bool): State {
    var n := Active(w.below) + if active then 1 else 0;
    State(w.config, [Call(f, w.below)] + w.others, Some(0), Held(w.below) + 1, None, w.socket, w.created,
          n, if n == 0 then None else Some(0), w.asked, w.errs)
  }

  /** The same with the socket mutex held. */
  function Locked(w: Scene, f: Frame, active: bool): State {
    At(w, f, active).(socketOwner := Some(0))
  }

  /** Thread 0 is outside the client. */
  function Resting(w: Scene): State {
    State(w.config, [Idle] + w.others, None, 0, None, w.socket, w.created, 0, None, w.asked, w.errs)
  }

  lemma InitRests(config: Config, threads: nat)
    requires threads > 0
    ensures Init(config, threads) == Resting(Scene(config, seq(threads - 1, i => Idle), Idle, None, 0, false, {}))
  {
    assert Init(config, threads).threads == [Idle] + seq(threads - 1, i => Idle);
  }

  lemma FirstOf(a: Calls, b: Calls, others: seq<Calls>)
    ensures ([a] + others)[0 := b] == [b] + others
  {
  }

  const GO := Answer(true, true, false, true)

  /** A call begins, with a variable it may be given. */
  lemma Begins(s: State, w: Scene, v: nat)
    requires Reaches(s, Resting(w)) && w.below.Idle? && MayPass(Resting(w), v)
    ensures Reaches(s, At(w, Send(false, false, Entering, v), false))
  {
    var s0, waiting := Resting(w), Send(false, false, Waiting, v);
    var s1 := s0.(threads := [Call(waiting, Idle)] + w.others);
    Then(s, s0, CallSend(0, v));
    FirstOf(Idle, Call(waiting, Idle), w.others);
    assert Step(s0, CallSend(0, v)) == s1;
    Takes(s, w, s1, waiting);
  }

  lemma Takes(s: State, w: Scene, s1: State, waiting: Frame)
    requires Reaches(s, s1) && waiting.Send? && waiting.pc.Waiting? && s1.requestOwner in {None, Some(0)}
    requires s1 == At(w, waiting, false).(requestOwner := s1.requestOwner, requestDepth := Held(w.below))
    ensures Reaches(s, At(w, waiting.(pc := Entering), false))
  {
    Then(s, s1, Advance(0, GO));
    FirstOf(Call(waiting, w.below), Call(waiting.(pc := Entering), w.below), w.others);
    assert Step(s1, Advance(0, GO)) == At(w, waiting.(pc := Entering), false);
  }

  /** A callback of the request `g` makes a call. */
  lemma Nests(s: State, w: Scene, g: Frame, v: nat)
    requires Reaches(s, At(w, g, true)) && g.Send? && g.pc.Processing? && MayPass(At(w, g, true), v)
    ensures Reaches(s, At(w.(below := Call(g, w.below)), Send(false, false, Entering, v), false))
  {
    var s0, waiting, below := At(w, g, true), Send(false, false, Waiting, v), Call(g, w.below);
    var s1 := s0.(threads := [Call(waiting, below)] + w.others);
    Then(s, s0, CallSend(0, v));
    FirstOf(below, Call(waiting, below), w.others);
    assert Step(s0, CallSend(0, v)) == s1;
    Takes(s, w.(below := below), s1, waiting);
  }

  /** The client itself sends another request on behalf of `g`. */
  lemma NestsOwn(s: State, w: Scene, g: Frame)
    requires Reaches(s, At(w, g, true)) && g.Send? && g.pc.Processing?
    ensures Reaches(s, At(w.(below := Call(g, w.below)), Send(false, true, Entering, g.variable), false))
  {
    var s0, waiting, below := At(w, g, true), Send(false, true, Waiting, g.variable), Call(g, w.below);
    var s1 := s0.(threads := [Call(waiting, below)] + w.others);
    Then(s, s0, CallAgain(0, true));
    FirstOf(below, Call(waiting, below), w.others);
    assert Hold(w.errs, g.variable, g.variable in w.errs) == w.errs;
    assert Step(s0, CallAgain(0, true)) == s1;
    Takes(s, w.(below := below), s1, waiting);
  }

  /** Any request to close is forgotten; without a socket that is alive there is a new one, and connecting it
      resets the error. */
  function Opened(w: Scene, v: nat, alive: bool): Scene {
    if w.socket.Some? && alive then w.(asked := false)
    else w.(asked := false, socket := Some(w.created), created := w.created + 1, errs := Hold(w.errs, v, false))
  }

  lemma Locks(s: State, w: Scene, f: Frame)
    requires f.Send? && Reaches(s, At(w, f.(pc := Entering), false))
    ensures Reaches(s, Locked(w, f.(pc := Checking), false))
  {
    var s0 := At(w, f.(pc := Entering), false);
    Then(s, s0, Advance(0, GO));
    FirstOf(Call(f.(pc := Entering), w.below), Call(f.(pc := Checking), w.below), w.others);
    assert Step(s0, Advance(0, GO)) == Locked(w, f.(pc := Checking), false);
  }

  lemma GetsSocket(s: State, w: Scene, f: Frame, alive: bool)
    requires f.Send? && Reaches(s, Locked(w, f.(pc := Checking), false))
    ensures Reaches(s, Locked(Opened(w, f.variable, alive), f.(pc := Marking), false))
  {
    var go := Advance(0, GO.(alive := alive));
    var s1 := Locked(w, f.(pc := Checking), false);
    Then(s, s1, go);
    if w.socket.Some? && alive {
      FirstOf(Call(f.(pc := Checking), w.below), Call(f.(pc := Marking), w.below), w.others);
      assert Step(s1, go) == Locked(w.(asked := false), f.(pc := Marking), false);
    } else {
      FirstOf(Call(f.(pc := Checking), w.below), Call(f.(pc := Connecting), w.below), w.others);
      var w' := w.(asked := false, socket := None);
      assert Step(s1, go) == Locked(w', f.(pc := Connecting), false);
      Connects(s, w', f);
    }
  }

  lemma Connects(s: State, w: Scene, f: Frame)
    requires f.Send? && w.socket.None? && !w.asked && Reaches(s, Locked(w, f.(pc := Connecting), false))
    ensures Reaches(s, Locked(Opened(w, f.variable, true), f.(pc := Marking), false))
  {
    var s2 := Locked(w, f.(pc := Connecting), false);
    Then(s, s2, Advance(0, GO));
    FirstOf(Call(f.(pc := Connecting), w.below), Call(f.(pc := Marking), w.below), w.others);
    assert Step(s2, Advance(0, GO)) == Locked(Opened(w, f.variable, true), f.(pc := Marking), false);
  }

  /** It is counted, and its request begins. */
  lemma GetsGoing(s: State, w: Scene, f: Frame)
    requires f.Send? && Reaches(s, Locked(w, f.(pc := Marking), false))
    ensures Reaches(s, At(w, f.(pc := Processing), true))
  {
    var s0, s1 := Locked(w, f.(pc := Marking), false), Locked(w, f.(pc := Marked), true);
    Then(s, s0, Advance(0, GO));
    FirstOf(Call(f.(pc := Marking), w.below), Call(f.(pc := Marked), w.below), w.others);
    assert Step(s0, Advance(0, GO)) == s1;
    Then(s, s1, Advance(0, GO));
    FirstOf(Call(f.(pc := Marked), w.below), Call(f.(pc := Processing), w.below), w.others);
    assert Step(s1, Advance(0, GO)) == At(w, f.(pc := Processing), true);
  }

  /** The error after a request: with TLS a failure can set it, and a success can leave it. */
  function Ended(w: Scene, v: nat, ret: bool): Scene {
    w.(errs := Hold(w.errs, v, v in w.errs || (!ret && w.config.ssl)))
  }

  lemma Ends(s: State, w: Scene, f: Frame, ret: bool)
    requires f.Send? && Reaches(s, At(w, f.(pc := Processing), true))
    ensures Reaches(s, Locked(Ended(w, f.variable, ret), f.(pc := Unmarking(ret, false)), true))
  {
    var go, w' := Advance(0, Answer(true, ret, false, true)), Ended(w, f.variable, ret);
    var s0, s1 := At(w, f.(pc := Processing), true), At(w', f.(pc := Finishing(ret, false)), true);
    Then(s, s0, go);
    FirstOf(Call(f.(pc := Processing), w.below), Call(f.(pc := Finishing(ret, false)), w.below), w.others);
    assert Step(s0, go) == s1;
    Then(s, s1, go);
    FirstOf(Call(f.(pc := Finishing(ret, false)), w.below), Call(f.(pc := Unmarking(ret, false)), w.below), w.others);
    assert Step(s1, go) == Locked(w', f.(pc := Unmarking(ret, false)), true);
  }

  /** A request that followed an answer ends with that result. */
  lemma EndsAnswered(s: State, w: Scene, f: Frame, ret: bool)
    requires f.Send? && Reaches(s, At(w, f.(pc := Answered(ret)), true))
    ensures Reaches(s, Locked(w, f.(pc := Unmarking(ret, false)), true))
  {
    var s0, s1 := At(w, f.(pc := Answered(ret)), true), At(w, f.(pc := Finishing(ret, false)), true);
    Then(s, s0, Advance(0, GO));
    FirstOf(Call(f.(pc := Answered(ret)), w.below), Call(f.(pc := Finishing(ret, false)), w.below), w.others);
    assert Step(s0, Advance(0, GO)) == s1;
    Then(s, s1, Advance(0, GO));
    FirstOf(Call(f.(pc := Finishing(ret, false)), w.below), Call(f.(pc := Unmarking(ret, false)), w.below), w.others);
    assert Step(s1, Advance(0, GO)) == Locked(w, f.(pc := Unmarking(ret, false)), true);
  }

  /** The count drops. */
  lemma Drops(s: State, w: Scene, f: Frame, ret: bool)
    requires f.Send? && Reaches(s, Locked(w, f.(pc := Unmarking(ret, false)), true))
    ensures Reaches(s, Locked(w, f.(pc := Ending(ret, false)), false))
  {
    var s0 := Locked(w, f.(pc := Unmarking(ret, false)), true);
    Then(s, s0, Advance(0, GO));
    FirstOf(Call(f.(pc := Unmarking(ret, false)), w.below), Call(f.(pc := Ending(ret, false)), w.below), w.others);
    assert Step(s0, Advance(0, GO)) == Locked(w, f.(pc := Ending(ret, false)), false);
  }

  /** A failure or a stop closes the socket. */
  function ClosedOrKept(w: Scene, ret: bool): Scene {
    w.(socket := if ret && !w.asked then w.socket else None)
  }

  lemma ClosesOrKeeps(s: State, w: Scene, f: Frame, ret: bool)
    requires f.Send? && Reaches(s, Locked(w, f.(pc := Ending(ret, false)), false))
    ensures Reaches(s, At(ClosedOrKept(w, ret), f.(pc := Done(ret)), false))
  {
    var s0, w' := Locked(w, f.(pc := Ending(ret, false)), false), ClosedOrKept(w, ret);
    var s1 := Locked(w', f.(pc := Unlocking(ret)), false);
    Then(s, s0, Advance(0, GO));
    FirstOf(Call(f.(pc := Ending(ret, false)), w.below), Call(f.(pc := Unlocking(ret)), w.below), w.others);
    assert Step(s0, Advance(0, GO)) == s1;
    Then(s, s1, Advance(0, GO));
    FirstOf(Call(f.(pc := Unlocking(ret)), w.below), Call(f.(pc := Done(ret)), w.below), w.others);
    assert Step(s1, Advance(0, GO)) == At(w', f.(pc := Done(ret)), false);
  }

  /** From the end of the request to the end of send_. */
  function Finished(w: Scene, v: nat, ret: bool): Scene {
    ClosedOrKept(Ended(w, v, ret), ret)
  }

  lemma Finishes(s: State, w: Scene, f: Frame, ret: bool)
    requires f.Send? && Reaches(s, At(w, f.(pc := Processing), true))
    ensures Reaches(s, At(Finished(w, f.variable, ret), f.(pc := Done(ret)), false))
  {
    var w' := Ended(w, f.variable, ret);
    Ends(s, w, f, ret);
    Drops(s, w', f, ret);
    ClosesOrKeeps(s, w', f, ret);
  }

  /** One whole run of send_. */
  lemma Tries(s: State, w: Scene, f: Frame, ret: bool)
    requires f.Send? && Reaches(s, At(w, f.(pc := Entering), false))
    ensures Reaches(s, At(Finished(Opened(w, f.variable, true), f.variable, ret), f.(pc := Done(ret)), false))
  {
    Starts(s, w, f);
    Finishes(s, Opened(w, f.variable, true), f, ret);
  }

  /** From the call of send_ to the request. */
  lemma Starts(s: State, w: Scene, f: Frame)
    requires f.Send? && Reaches(s, At(w, f.(pc := Entering), false))
    ensures Reaches(s, At(Opened(w, f.variable, true), f.(pc := Processing), true))
  {
    Locks(s, w, f);
    GetsSocket(s, w, f, true);
    GetsGoing(s, Opened(w, f.variable, true), f);
  }

  /** With the error after the first try there is a second one. */
  lemma Retries(s: State, w: Scene, f: Frame, ret: bool)
    requires f.Send? && !f.second && f.pc == Done(ret) && f.variable in w.errs && Reaches(s, At(w, f, false))
    ensures Reaches(s, At(w, f.(pc := Entering, second := true), false))
  {
    var s0 := At(w, f, false);
    Then(s, s0, Advance(0, GO));
    FirstOf(Call(f, w.below), Call(f.(pc := Entering, second := true), w.below), w.others);
    assert Step(s0, Advance(0, GO)) == At(w, f.(pc := Entering, second := true), false);
  }

  /** A call from outside returns, and the request mutex is free. */
  lemma Returns(s: State, w: Scene, f: Frame)
    requires f.Send? && f.pc.Done? && !f.own && (f.second || f.variable !in w.errs) && w.below.Idle?
    requires Reaches(s, At(w, f, false))
    ensures Reaches(s, Resting(w))
  {
    var s0 := At(w, f, false);
    Then(s, s0, Advance(0, GO));
    FirstOf(Call(f, Idle), Idle, w.others);
    assert Step(s0, Advance(0, GO)) == Resting(w);
  }

  /** A call from a callback returns to the request `g`. */
  lemma ReturnsTo(s: State, w: Scene, f: Frame, g: Frame)
    requires f.Send? && f.pc.Done? && !f.own && (f.second || f.variable !in w.errs)
    requires g.Send? && g.pc.Processing? && Reaches(s, At(w.(below := Call(g, w.below)), f, false))
    ensures Reaches(s, At(w, g, true))
  {
    var s0 := At(w.(below := Call(g, w.below)), f, false);
    Then(s, s0, Advance(0, GO));
    FirstOf(Call(f, Call(g, w.below)), Call(g, w.below), w.others);
    assert Step(s0, Advance(0, GO)) == At(w, g, true);
  }

  /** A call of the client's own returns, and its result is that of the request `g`. */
  lemma ReturnsOwn(s: State, w: Scene, f: Frame, g: Frame)
    requires f.Send? && f.pc.Done? && f.own && (f.second || f.variable !in w.errs)
    requires g.Send? && g.pc.Processing? && Reaches(s, At(w.(below := Call(g, w.below)), f, false))
    ensures Reaches(s, At(w, g.(pc := Answered(f.pc.ret)), true))
  {
    var s0 := At(w.(below := Call(g, w.below)), f, false);
    Then(s, s0, Advance(0, GO));
    FirstOf(Call(f, Call(g, w.below)), Call(g.(pc := Answered(f.pc.ret)), w.below), w.others);
    assert Step(s0, Advance(0, GO)) == At(w, g.(pc := Answered(f.pc.ret)), true);
  }

  /** With TLS the peer may have closed at both tries: no socket is left, and the error is. */
  function Failed(w: Scene, v: nat): Scene {
    w.(socket := None, asked := false, errs := Hold(w.errs, v, true),
       created := if w.socket.Some? then w.created + 1 else w.created + 2)
  }

  lemma FailsTwice(s: State, w: Scene, v: nat)
    requires w.config.ssl && Reaches(s, At(w, Send(false, false, Entering, v), false))
    ensures Reaches(s, At(Failed(w, v), Send(true, false, Done(false), v), false))
  {
    var first, second := Send(false, false, Done(false), v), Send(true, false, Done(false), v);
    var w1 := Finished(Opened(w, v, true), v, false);
    Tries(s, w, first, false);
    Retries(s, w1, first, false);
    Tries(s, w1, second, false);
    assert Finished(Opened(w1, v, true), v, false) == Failed(w, v);
  }

  /** A request with a variable that does not hold the error opens a connection and keeps it. */
  lemma KeepsAlive(s: State, w: Scene, v: nat)
    requires Reaches(s, Resting(w)) && w.below.Idle? && v !in w.errs && (InUse(Resting(w), v) ==> w.config.shares)
    requires w.socket.None? && !w.asked
    ensures Reaches(s, Resting(w.(socket := Some(w.created), created := w.created + 1)))
  {
    Begins(s, w, v);
    Tries(s, w, Send(false, false, Entering, v), true);
    var w' := w.(socket := Some(w.created), created := w.created + 1);
    assert Finished(Opened(w, v, true), v, true) == w';
    Returns(s, w', Send(false, false, Done(true), v));
  }

  // ----- a stop that is lost

  /** The steps of another thread's stop, up to its decision. */
  lemma AsksToStop(s: State, w: Scene, f: Frame)
    requires w.others == [Idle] && Reaches(s, At(w, f, true))
    ensures Reaches(s, At(w.(others := [Call(Stop(Deciding), Idle)]), f, true).(socketOwner := Some(1)))
  {
    var s0, s1 := At(w, f, true), At(w.(others := [Call(Stop(Asking), Idle)]), f, true);
    Then(s, s0, CallStop(1));
    assert Step(s0, CallStop(1)) == s1;
    Then(s, s1, Advance(1, GO));
    assert Step(s1, Advance(1, GO)) ==
           At(w.(others := [Call(Stop(Deciding), Idle)]), f, true).(socketOwner := Some(1));
  }

  lemma Decides(w: Scene, f: Frame)
    requires w.others == [Idle] && !w.asked
    ensures var s := At(w.(others := [Call(Stop(Deciding), Idle)]), f, true).(socketOwner := Some(1));
            Reaches(Step(s, Advance(1, GO)), At(w.(asked := true), f, true))
  {
    var s1 := At(w.(others := [Call(Stop(Deciding), Idle)]), f, true).(socketOwner := Some(1));
    var s2 := At(w.(others := [Call(Stop(Decided), Idle)], asked := true), f, true).(socketOwner := Some(1));
    assert Step(s1, Advance(1, GO)) == s2;
    FromHere(s2);
    Then(s2, s2, Advance(1, GO));
    assert Step(s2, Advance(1, GO)) == At(w.(asked := true), f, true);
  }

  /** From the look of the inner request `g` at the socket, which is not alive any more, to the end of both. */
  lemma GoesOn(w: Scene, f: Frame, g: Frame)
    requires w.below.Idle? && w.errs == {} && f.Send? && !f.own && f.pc.Processing? && g.Send? && g.pc.Checking?
    ensures Reaches(Locked(w.(below := Call(f, Idle)), g, false),
                    Resting(w.(asked := false, socket := Some(w.created), created := w.created + 1)))
  {
    var s, inside := Locked(w.(below := Call(f, Idle)), g, false), w.(below := Call(f, Idle));
    var last := w.(asked := false, socket := Some(w.created), created := w.created + 1);
    FromHere(s);
    GetsSocket(s, inside, g, false);
    assert Opened(inside, g.variable, false) == last.(below := Call(f, Idle));
    GetsGoing(s, last.(below := Call(f, Idle)), g);
    Finishes(s, last.(below := Call(f, Idle)), g, true);
    if g.own {
      ReturnsOwn(s, last, g.(pc := Done(true)), f);
      EndsAnswered(s, last, f, true);
      Drops(s, last, f, true);
      ClosesOrKeeps(s, last, f, true);
    } else {
      ReturnsTo(s, last, g.(pc := Done(true)), f);
      Finishes(s, last, f, true);
    }
    Returns(s, last, f.(pc := Done(true)));
  }

  /** A request of thread 0 is being processed. */
  function UnderWay(config: Config): Scene {
    Scene(config, [Idle], Idle, Some(0), 1, false, {})
  }

  lemma GetsUnderWay(config: Config)
    ensures Reaches(Init(config, 2), At(UnderWay(config), Send(false, false, Processing, 0), true))
  {
    var s, w := Init(config, 2), Scene(config, [Idle], Idle, None, 0, false, {});
    InitRests(config, 2);
    assert seq(1, i => Idle) == [Idle];
    FromHere(s);
    Begins(s, w, 0);
    Starts(s, w, Send(false, false, Processing, 0));
    assert Opened(w, 0, true) == UnderWay(config);
  }

  /** An inner request comes to look at the socket, on behalf of a callback or of the client itself. */
  lemma InnerLooks(s: State, w: Scene, own: bool) returns (g: Frame)
    requires w.below.Idle? && w.others == [Idle] && w.errs == {}
    requires Reaches(s, At(w, Send(false, false, Processing, 0), true))
    ensures g.Send? && g.pc.Checking? && g.own == own
    ensures Reaches(s, Locked(w.(below := Call(Send(false, false, Processing, 0), Idle)), g, false))
  {
    var f := Send(false, false, Processing, 0);
    if own {
      NestsOwn(s, w, f);
    } else {
      Nests(s, w, f, 1);
    }
    g := Send(false, own, Checking, if own then 0 else 1);
    Locks(s, w.(below := Call(f, Idle)), g);
  }

  /**
   While a request is processed another thread stops the client. An inner request then looks at the socket, on
   behalf of a callback or of the client itself, and forgets the stop: in the end nothing is in flight and a socket
   is open.
   */
  lemma StopCanBeLost(config: Config, own: bool) returns (asked: State, look: State, end: State)
    ensures Reaches(Init(config, 2), asked) && Stops(asked, Advance(1, GO))
    ensures Reaches(Step(asked, Advance(1, GO)), look) && look.shouldClose && IsCheck(look, Advance(0, GO))
    ensures look.threads[0].top.own == own
    ensures Reaches(look, end) && end.threads == [Idle, Idle] && end.inFlight == 0 && end.socket.Some?
  {
    var w, f := UnderWay(config), Send(false, false, Processing, 0);
    GetsUnderWay(config);
    AsksToStop(Init(config, 2), w, f);
    asked := At(w.(others := [Call(Stop(Deciding), Idle)]), f, true).(socketOwner := Some(1));
    Decides(w, f);
    var w' := w.(asked := true);
    var g := InnerLooks(Step(asked, Advance(1, GO)), w', own);
    look := Locked(w'.(below := Call(f, Idle)), g, false);
    GoesOn(w', f, g);
    end := Resting(w'.(asked := false, socket := Some(1), created := 2));
  }
}
