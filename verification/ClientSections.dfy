/**
 The client's object: what each piece of src/httplib.h that runs with the socket mutex held does to the
 fields, tied to the steps of the locking protocol that it carries out. The checks the program makes before
 it closes a socket are preconditions here, and they hold whenever the protocol gets there.
 */
module ClientSections {
  import opened Basics
  import opened ClientSocket
  import opened ClientRuns

  class Client {
    var socket: Option<nat>
    var created: nat
    var inFlight: nat
    var fromThread: Option<nat>
    var shouldClose: bool

    constructor (config: Config, threads: nat)
      ensures Shows(Init(config, threads))
    {
      socket, created, inFlight, fromThread, shouldClose := None, 0, 0, None, false;
    }

    /** The object in a state of the step system. */
    predicate Shows(s: State)
      reads this
    {
      && s.socket == socket && s.created == created && s.inFlight == inFlight
      && s.fromThread == fromThread && s.shouldClose == shouldClose
    }

    /** Lines 6912-6929, with its check. */
    method CloseSocket(me: nat)
      requires inFlight == 0 || fromThread == Some(me)
      modifies this`socket
      ensures socket == None
    {
      if socket.None? {
        return;
      }
      socket := None;
    }

    /**
     Lines 6978-7028 and 3360-3368: a request starts, on the open socket if it is alive and on a new one
     otherwise. `before` and `error` say whether the caller's Error is the one for a peer that may have closed:
     a new connection resets it.
     */
    method BeginRequest(me: nat, f: Frame, alive: bool, connected: bool, ret: bool, keeps: bool, before: bool,
                        ghost s: State)
      returns (started: bool, error: bool, ghost r: State)
      requires Shows(s) && Inv(s) && me < |s.threads| && s.threads[me].Call?
      requires s.threads[me].top == f && f.Send? && f.pc.Checking? && (before <==> f.variable in s.errs)
      modifies this
      ensures Shows(r) && Reaches(s, r)
      ensures started <==> (s.socket.Some? && alive) || connected
      ensures r.threads == s.threads[me := Call(f.(pc := if started then SendPc.Marked else Unlocking(ret)),
                                                s.threads[me].below)]
      ensures r.errs == Hold(s.errs, f.variable, error)
      ensures started ==> (error <==> before && s.socket.Some? && alive)
      ensures !started && error ==> before && !ret
      ensures inFlight == old(inFlight) + (if started then 1 else 0)
      ensures !started ==> socket.None?
    {
      HoldsSocketIsOwner(s, me);
      r := BeginSteps(s, me, f, alive, connected, ret, keeps);
      var lives;
      started, lives := EnsureSocket(me, alive, connected);
      if !started {
        return false, before && keeps && !ret, r;
      }
      error := lives && before;
      assert inFlight > 1 ==> fromThread == Some(me);
      inFlight := inFlight + 1;
      fromThread := Some(me);
    }

    /** Lines 6983-7017: the open socket if it is alive, and a new one otherwise. */
    method EnsureSocket(me: nat, alive: bool, connected: bool) returns (ready: bool, lives: bool)
      requires inFlight == 0 || fromThread == Some(me)
      modifies this`socket, this`created, this`shouldClose
      ensures !shouldClose && lives == (old(socket).Some? && alive) && ready == (lives || connected)
      ensures socket == if lives then old(socket) else if connected then Some(old(created)) else None
      ensures created == if lives || !connected then old(created) else old(created) + 1
    {
      shouldClose, lives := false, false;
      if socket.Some? {
        lives := alive;
        if !lives {
          CloseSocket(me);
        }
      }
      if !lives {
        if !connected {
          return false, lives;
        }
        socket, created := Some(created), created + 1;
      }
      return true, lives;
    }

    /** Lines 7038-7053: a request ends. */
    method EndRequest(me: nat, f: Frame, ghost s: State) returns (ghost r: State)
      requires Shows(s) && Inv(s) && me < |s.threads| && s.threads[me].Call?
      requires s.threads[me].top == f && f.Send? && f.pc.Unmarking?
      modifies this
      ensures Shows(r) && Reaches(s, r)
      ensures r.threads == s.threads[me := Call(f.(pc := Unlocking(f.pc.ret)), s.threads[me].below)]
      ensures inFlight == old(inFlight) - 1
      ensures socket == if old(shouldClose) || f.pc.hangUp || !f.pc.ret then None else old(socket)
    {
      HoldsSocketIsOwner(s, me);
      r := EndSteps(s, me, f);
      inFlight := inFlight - 1;
      if inFlight <= 0 {
        assert inFlight == 0;
        fromThread := None;
      }
      if shouldClose || f.pc.hangUp || !f.pc.ret {
        CloseSocket(me);
      }
    }

    /** Lines 8066-8087: another thread, or a callback, asks for an end. */
    method StopNow(me: nat, ghost s: State)
      requires Shows(s) && Inv(s) && me < |s.threads| && s.threads[me].Call? && s.threads[me].top == Stop(Deciding)
      modifies this
      ensures Shows(Step(s, Advance(me, Answer(true, true, false, false))))
      ensures inFlight > 0 ==> shouldClose && socket == old(socket)
      ensures inFlight == 0 ==> socket.None?
      ensures inFlight == old(inFlight)
    {
      if inFlight > 0 {
        shouldClose := true;
        return;
      }
      CloseSocket(me);
    }

    /** Lines 7111-7114: the response says that the connection ends. */
    method CloseInRequest(me: nat, f: Frame, ghost s: State)
      requires Shows(s) && Inv(s) && me < |s.threads| && s.threads[me].Call?
      requires s.threads[me].top == f && f.Send? && f.pc.ClosingInside?
      modifies this
      ensures Shows(Step(s, Advance(me, Answer(true, true, false, false)))) && socket.None?
    {
      HoldsSocketIsOwner(s, me);
      CloseSocket(me);
    }
  }

  /** A request has started on the given socket. */
  function Begun(s: State, me: nat, f: Frame, socket: Option<nat>, created: nat, error: bool): State
    requires me < |s.threads| && s.threads[me].Call? && f.Send?
  {
    SetTop(s, me, f.(pc := SendPc.Marked)).(
      shouldClose := false, inFlight := s.inFlight + 1, fromThread := Some(me), socket := socket, created := created,
      errs := Hold(s.errs, f.variable, error))
  }

  /** A call got no connection, or one on which the proxy or the TLS handshake failed. */
  function NotConnected(s: State, me: nat, f: Frame, ret: bool, keeps: bool): State
    requires me < |s.threads| && s.threads[me].Call? && f.Send?
  {
    SetTop(s, me, f.(pc := Unlocking(ret))).(
      shouldClose := false, socket := None, errs := Hold(s.errs, f.variable, f.variable in s.errs && keeps && !ret))
  }

  /** The steps of a request's start, and what they lead to. */
  lemma BeginSteps(s: State, me: nat, f: Frame, alive: bool, connected: bool, ret: bool, keeps: bool) returns (r: State)
    requires me < |s.threads| && s.threads[me].Call? && s.threads[me].top == f && f.Send? && f.pc.Checking?
    ensures Reaches(s, r)
    ensures r == if s.socket.Some? && alive then Begun(s, me, f, s.socket, s.created, f.variable in s.errs)
                 else if connected then Begun(s, me, f, Some(s.created), s.created + 1, false)
                 else NotConnected(s, me, f, ret, keeps)
  {
    FromHere(s);
    r := MoveOn(s, s, me, f, Answer(alive, ret, false, false));
    if s.socket.Some? && alive {
      r := AliveSteps(s, me, f, r);
    } else {
      r := ConnectSteps(s, me, f, r, connected, ret, keeps);
    }
  }

  lemma AliveSteps(s: State, me: nat, f: Frame, m: State) returns (r: State)
    requires me < |s.threads| && s.threads[me].Call? && s.threads[me].top == f && f.Send?
    requires Reaches(s, m) && m == SetTop(s, me, f.(pc := Marking)).(shouldClose := false)
    ensures Reaches(s, r) && r == Begun(s, me, f, s.socket, s.created, f.variable in s.errs)
  {
    r := MarkStep(s, m, me, f.(pc := Marking));
    SetTwice(s.threads, me, m.threads[me], r.threads[me]);
    assert Hold(s.errs, f.variable, f.variable in s.errs) == s.errs;
  }

  lemma ConnectSteps(s: State, me: nat, f: Frame, m: State, connected: bool, ret: bool, keeps: bool) returns (r: State)
    requires me < |s.threads| && s.threads[me].Call? && s.threads[me].top == f && f.Send?
    requires Reaches(s, m) && m == SetTop(s, me, f.(pc := Connecting)).(shouldClose := false, socket := None)
    ensures Reaches(s, r)
    ensures r == if connected then Begun(s, me, f, Some(s.created), s.created + 1, false)
                 else NotConnected(s, me, f, ret, keeps)
  {
    r := MoveOn(s, m, me, f.(pc := Connecting), Answer(connected, ret, false, keeps));
    SetTwice(s.threads, me, m.threads[me], r.threads[me]);
    if connected {
      var m' := r;
      r := MarkStep(s, m', me, f.(pc := Marking));
      SetTwice(s.threads, me, m'.threads[me], r.threads[me]);
    }
  }

  lemma MarkStep(s: State, m: State, me: nat, f: Frame) returns (r: State)
    requires Reaches(s, m) && me < |m.threads| && m.threads[me].Call? && m.threads[me].top == f && f.Send? && f.pc.Marking?
    ensures Reaches(s, r)
    ensures r == SetTop(m, me, f.(pc := SendPc.Marked)).(inFlight := m.inFlight + 1, fromThread := Some(me))
  {
    r := MoveOn(s, m, me, f, Answer(true, true, false, false));
  }

  lemma SetTwice(threads: seq<Calls>, t: nat, a: Calls, b: Calls)
    requires t < |threads|
    ensures threads[t := a][t := b] == threads[t := b]
  {
  }

  lemma EndSteps(s: State, me: nat, f: Frame) returns (r: State)
    requires me < |s.threads| && s.threads[me].Call? && s.threads[me].top == f && f.Send? && f.pc.Unmarking?
    requires s.inFlight > 0
    ensures Reaches(s, r)
    ensures r == SetTop(s, me, f.(pc := Unlocking(f.pc.ret))).(
                   inFlight := s.inFlight - 1, fromThread := if s.inFlight == 1 then None else s.fromThread,
                   socket := if s.shouldClose || f.pc.hangUp || !f.pc.ret then None else s.socket)
  {
    FromHere(s);
    r := MoveOn(s, s, me, f, Answer(true, true, false, false));
    r := MoveOn(s, r, me, r.threads[me].top, Answer(true, true, false, false));
  }

  lemma MoveOn(s: State, m: State, me: nat, f: Frame, a: Answer) returns (r: State)
    requires Reaches(s, m) && me < |m.threads| && m.threads[me].Call? && m.threads[me].top == f && f.Send?
    ensures r == StepSend(m, me, f, a) && Reaches(s, r)
  {
    Then(s, m, Advance(me, a));
    r := Step(m, Advance(me, a));
  }

  /** A call inside a critical section of send_ holds the request mutex, so the count names its thread. */
  lemma HoldsSocketIsOwner(s: State, me: nat)
    requires Inv(s) && me < |s.threads| && s.threads[me].Call? && HoldsRequest(s.threads[me].top)
    ensures s.requestOwner == Some(me) && (s.inFlight == 0 || s.fromThread == Some(me))
    ensures IsActive(s.threads[me].top) ==> s.inFlight > 0
  {
    assert Held(s.threads[me]) > 0;
  }
}
