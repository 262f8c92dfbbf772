/**
 The whole alarm path of src/alarmer.cpp as one step system: producers push into the ring while the
 worker polls its stop flag, pops one alarm, asks the limiter, and hands it to every interceptor and
 exporter in turn; at shutdown the worker stops and the ring destroys what it still holds.
 */
module AlarmPath {
  import opened RingProtocol
  import opened RingSafety
  import opened RingFifo
  import opened Limiter

  /** Where the worker thread stands. `next` counts the interceptors and exporters already served. */
  datatype Worker =
    | Polling
    | Popping
    | Got(msg: Message)
    | Delivering(msg: Message, next: nat)
    | Stopped
    | Destroyed

  /** `sinks` are the logs of the interceptors followed by those of the exporters; `checked` and
      `suppressed` record what the limiter was asked and what it held back. */
  datatype System = System(
    ring: State<Message>,
    worker: Worker,
    stopping: bool,
    last: Times,
    checked: seq<Reading>,
    sinks: seq<seq<Message>>,
    suppressed: seq<Message>,
    discarded: seq<Message>)

  /** A producer step, a worker step at clock reading `now`, the request to stop, or destruction. */
  datatype Event =
    | Thread(act: Action<Message>)
    | Work(now: int)
    | Stop
    | Destroy

  const QUEUE_CAPACITY := 4096

  function Start(producers: nat, sinks: nat): System {
    System(Init(QUEUE_CAPACITY, producers), Polling, false, map[], [], seq(sinks, _ => []), [], [])
  }

  function WorkerStep(s: System, now: int): System {
    match s.worker
    case Polling =>
      if s.stopping then s.(worker := Stopped)
      else s.(worker := Popping, ring := Step(s.ring, StartPop(false)))
    case Popping =>
      var r := Step(s.ring, Consume);
      if !r.consumer.Resting? then s.(ring := r)
      else if |r.delivered| == |s.ring.delivered| then s.(ring := r, worker := Polling)
      else s.(ring := r, worker := Got(r.delivered[|r.delivered| - 1]))
    case Got(m) =>
      var r := Reading(m, now);
      var t := s.(last := Note(s.last, r), checked := s.checked + [r]);
      if !Passes(s.last, r) then t.(worker := Polling, suppressed := s.suppressed + [m])
      else if s.sinks == [] then t.(worker := Polling)
      else t.(worker := Delivering(m, 0))
    case Delivering(m, k) =>
      if k >= |s.sinks| then s
      else s.(sinks := s.sinks[k := s.sinks[k] + [m]],
              worker := if k + 1 < |s.sinks| then Delivering(m, k + 1) else Polling)
    case Stopped => s
    case Destroyed => s
  }

  ghost predicate AllIdle(r: State<Message>) {
    forall p | 0 <= p < |r.producers| :: r.producers[p].pc.Idle?
  }

  /** Alarm* calls only ever use TryPush, the queue must outlive every call, and only the worker pops. */
  ghost function Next(s: System, e: Event): System {
    match e
    case Thread(a) =>
      if s.worker.Destroyed? || !(a.Produce? || (a.Push? && !a.blocking)) then s
      else s.(ring := Step(s.ring, a))
    case Work(now) => WorkerStep(s, now)
    case Stop => s.(stopping := true)
    case Destroy =>
      if s.worker.Stopped? && AllIdle(s.ring)
      then s.(worker := Destroyed, discarded := ReadyValues(s.ring.slots))
      else s
  }

  ghost function RunPath(s: System, es: seq<Event>): System
    decreases |es|
  {
    if es == [] then s else RunPath(Next(s, es[0]), es[1..])
  }

  ghost predicate LapFreePath(s: System, es: seq<Event>)
    decreases |es|
  {
    es != [] ==> (es[0].Thread? ==> LapFreeStep(s.ring, es[0].act)) && LapFreePath(Next(s, es[0]), es[1..])
  }

  function Messages(rs: seq<Reading>): (ms: seq<Message>)
    ensures |ms| == |rs|
    ensures forall i | 0 <= i < |rs| :: ms[i] == rs[i].msg
  {
    seq(|rs|, i requires 0 <= i < |rs| => rs[i].msg)
  }

  // ----- where an accepted alarm can be

  /** Claimed in the ring and not moved out, while the ring exists. */
  function Queued(s: System): seq<Message>
    requires Consumed(s.ring) <= |s.ring.claims|
  {
    if s.worker.Destroyed? then [] else Queue(s.ring)
  }

  /** In the hands of the worker. */
  function Processing(s: System): seq<Message> {
    s.ring.consumer.InHand()
    + match s.worker
      case Got(m) => [m]
      case Delivering(m, _) => [m]
      case _ => []
  }

  /** The alarms the limiter let through so far, but for one whose delivery is under way. */
  function Handed(s: System): seq<Message> {
    HandedBy(s.worker, s.checked)
  }

  function HandedBy(worker: Worker, checked: seq<Reading>): seq<Message> {
    var passed := Messages(Admitted(map[], checked));
    if worker.Delivering? && passed != [] then passed[..|passed| - 1] else passed
  }

  // ----- the invariant

  ghost predicate WorkerOk(s: System) {
    WorkerMatch(s.ring, s.worker, s.checked)
  }

  /** The worker holds the consumer's end of the ring while it pops; what it popped was checked. */
  ghost predicate WorkerMatch(ring: State<Message>, worker: Worker, checked: seq<Reading>) {
    var c := ring.consumer;
    && (match worker
        case Popping => c.PopReady? || c.PopTaken? || c.PopCleared? || ((c.PopTail? || c.PopNonEmpty?) && !c.blocking)
        case _ => c.Resting?)
    && ring.delivered == Messages(checked) + if worker.Got? then [worker.msg] else []
  }

  ghost predicate LimiterOk(s: System) {
    LimiterMatch(s.last, s.checked, s.suppressed)
  }

  ghost predicate LimiterMatch(last: Times, checked: seq<Reading>, suppressed: seq<Message>) {
    && last == NoteAll(map[], checked)
    && suppressed == Messages(Suppressed(map[], checked))
  }

  /** Every interceptor and exporter was handed exactly what the limiter let through, in that order;
      during a delivery the ones already served have the newest alarm, the others not yet. */
  ghost predicate SinksOk(s: System) {
    SinksMatch(s.worker, s.checked, s.sinks)
  }

  ghost predicate SinksMatch(worker: Worker, checked: seq<Reading>, sinks: seq<seq<Message>>) {
    && (worker.Delivering? ==>
          && worker.next < |sinks|
          && Messages(Admitted(map[], checked)) == HandedBy(worker, checked) + [worker.msg])
    && (forall i | 0 <= i < |sinks| ::
          sinks[i] == HandedBy(worker, checked)
            + if worker.Delivering? && i < worker.next then [worker.msg] else [])
  }

  ghost predicate PathInv(s: System) {
    && Inv(s.ring)
    && SentOk(s.ring)
    && WorkerOk(s)
    && LimiterOk(s)
    && SinksOk(s)
    && DiscardsMatch(s.ring, s.worker, s.discarded)
  }

  ghost predicate DiscardsMatch(ring: State<Message>, worker: Worker, discarded: seq<Message>) {
    && (worker.Destroyed? ==> Consumed(ring) <= |ring.claims| && multiset(discarded) == multiset(Queue(ring)))
    && (!worker.Destroyed? ==> discarded == [])
  }

  lemma StartInv(producers: nat, sinks: nat)
    ensures PathInv(Start(producers, sinks))
  {
    InitInv<Message>(QUEUE_CAPACITY, producers);
  }

  lemma {:induction false} AdmittedSnoc(last: Times, rs: seq<Reading>, r: Reading)
    ensures Admitted(last, rs + [r]) == Admitted(last, rs) + if Passes(NoteAll(last, rs), r) then [r] else []
    ensures Suppressed(last, rs + [r]) == Suppressed(last, rs) + if Passes(NoteAll(last, rs), r) then [] else [r]
    ensures NoteAll(last, rs + [r]) == Note(NoteAll(last, rs), r)
    decreases |rs|
  {
    if rs == [] {
      assert rs + [r] == [r] && [r][1..] == [];
    } else {
      assert (rs + [r])[1..] == rs[1..] + [r];
      AdmittedSnoc(Note(last, rs[0]), rs[1..], r);
    }
  }

  lemma MessagesConcat(a: seq<Reading>, b: seq<Reading>)
    ensures Messages(a + b) == Messages(a) + Messages(b)
  {
  }

  lemma ThreadInv(s: System, a: Action<Message>)
    requires PathInv(s) && LapFreeStep(s.ring, a)
    ensures PathInv(Next(s, Thread(a)))
  {
    if !s.worker.Destroyed? && (a.Produce? || (a.Push? && !a.blocking)) {
      StepInv(s.ring, a);
      StepKeepsSent(s.ring, a);
      ProducersLeaveConsumer(s.ring, a);
    }
  }

  lemma ProducersLeaveConsumer(r: State<Message>, a: Action<Message>)
    requires a.Produce? || a.Push?
    ensures Step(r, a).consumer == r.consumer && Step(r, a).delivered == r.delivered
  {
  }

  /** A pop either still runs, or ends empty-handed, or ends with one more delivered value. */
  lemma PopOutcome(r: State<Message>)
    requires Inv(r)
    requires r.consumer.PopTail? || r.consumer.PopNonEmpty? || r.consumer.PopReady? || r.consumer.PopTaken? || r.consumer.PopCleared?
    requires r.consumer.PopTail? || r.consumer.PopNonEmpty? ==> !r.consumer.blocking
    ensures var t := Step(r, Consume);
            && (t.delivered == r.delivered || (t.consumer.Resting? && t.delivered == r.delivered + [t.delivered[|r.delivered|]]))
            && (t.consumer.Resting? || t.consumer.PopReady? || t.consumer.PopTaken? || t.consumer.PopCleared?
                || (t.consumer.PopNonEmpty? && !t.consumer.blocking))
  {
    ConsumerStepInv(r);
  }

  lemma WorkInv(s: System, now: int)
    requires PathInv(s)
    ensures PathInv(WorkerStep(s, now))
  {
    match s.worker
    case Polling =>
      if !s.stopping {
        StepInv(s.ring, StartPop(false));
        StepKeepsSent(s.ring, StartPop(false));
      }
    case Popping =>
      StepInv(s.ring, Consume);
      StepKeepsSent(s.ring, Consume);
      PopOutcome(s.ring);
    case Got(m) => CheckInv(s, now);
    case Delivering(m, k) => DeliverInv(s, now);
    case Stopped =>
    case Destroyed =>
  }

  /** What one more reading adds to the records. */
  lemma CheckMessages(checked: seq<Reading>, r: Reading)
    ensures Messages(checked + [r]) == Messages(checked) + [r.msg]
    ensures var pass := Passes(NoteAll(map[], checked), r);
            && NoteAll(map[], checked + [r]) == Note(NoteAll(map[], checked), r)
            && Messages(Admitted(map[], checked + [r]))
               == Messages(Admitted(map[], checked)) + (if pass then [r.msg] else [])
            && Messages(Suppressed(map[], checked + [r]))
               == Messages(Suppressed(map[], checked)) + (if pass then [] else [r.msg])
  {
    AdmittedSnoc(map[], checked, r);
    MessagesConcat(checked, [r]);
    assert Messages([r]) == [r.msg];
    if Passes(NoteAll(map[], checked), r) {
      MessagesConcat(Admitted(map[], checked), [r]);
      assert Suppressed(map[], checked) + [] == Suppressed(map[], checked);
    } else {
      MessagesConcat(Suppressed(map[], checked), [r]);
      assert Admitted(map[], checked) + [] == Admitted(map[], checked);
    }
  }

  lemma CheckSinks(s: System, now: int)
    requires SinksOk(s) && LimiterOk(s) && s.worker.Got?
    ensures SinksOk(WorkerStep(s, now))
  {
    var r := Reading(s.worker.msg, now);
    CheckMessages(s.checked, r);
    var passed := Messages(Admitted(map[], s.checked));
    assert Passes(s.last, r) ==> (passed + [r.msg])[..|passed|] == passed;
    assert passed + [] == passed;
  }

  lemma CheckRecords(s: System, now: int)
    requires WorkerOk(s) && LimiterOk(s) && s.worker.Got?
    ensures WorkerOk(WorkerStep(s, now)) && LimiterOk(WorkerStep(s, now))
  {
    CheckMessages(s.checked, Reading(s.worker.msg, now));
    assert s.suppressed + [] == s.suppressed;
    assert Messages(s.checked) + [s.worker.msg] + [] == Messages(s.checked) + [s.worker.msg];
  }

  lemma CheckInv(s: System, now: int)
    requires PathInv(s) && s.worker.Got?
    ensures PathInv(WorkerStep(s, now))
  {
    CheckRecords(s, now);
    CheckSinks(s, now);
    assert WorkerStep(s, now).ring == s.ring && WorkerStep(s, now).discarded == s.discarded;
  }

  lemma DeliverInv(s: System, now: int)
    requires PathInv(s) && s.worker.Delivering?
    ensures PathInv(WorkerStep(s, now))
  {
  }

  lemma DestroyInv(s: System)
    requires PathInv(s)
    ensures PathInv(Next(s, Destroy))
  {
    if s.worker.Stopped? && AllIdle(s.ring) {
      DestroysTheQueue(s.ring);
    }
  }

  /** The request to stop changes nothing the invariant speaks of. */
  lemma StopInv(s: System)
    ensures PathInv(Next(s, Stop)) <==> PathInv(s)
  {
  }

  lemma NextInv(s: System, e: Event)
    requires PathInv(s)
    requires e.Thread? ==> LapFreeStep(s.ring, e.act)
    ensures PathInv(Next(s, e))
  {
    match e
    case Thread(a) => ThreadInv(s, a);
    case Work(now) => WorkInv(s, now);
    case Stop => StopInv(s);
    case Destroy => DestroyInv(s);
  }

  lemma {:induction false} RunPathInv(s: System, es: seq<Event>)
    requires PathInv(s) && LapFreePath(s, es)
    ensures PathInv(RunPath(s, es))
    decreases |es|
  {
    if es != [] {
      NextInv(s, es[0]);
      RunPathInv(Next(s, es[0]), es[1..]);
    }
  }

  // ----- what a run guarantees

  lemma {:induction false} AdmittedAndSuppressed(last: Times, rs: seq<Reading>)
    ensures multiset(Messages(rs)) == multiset(Messages(Admitted(last, rs))) + multiset(Messages(Suppressed(last, rs)))
    decreases |rs|
  {
    if rs != [] {
      var r, rest := rs[0], rs[1..];
      AdmittedAndSuppressed(Note(last, r), rest);
      assert rs == [r] + rest;
      MessagesConcat([r], rest);
      MessagesConcat([r], Admitted(Note(last, r), rest));
      MessagesConcat([r], Suppressed(Note(last, r), rest));
      assert [] + Admitted(Note(last, r), rest) == Admitted(Note(last, r), rest);
      assert [] + Suppressed(Note(last, r), rest) == Suppressed(Note(last, r), rest);
    }
  }

  /** Everything moved out of the ring was checked, is about to be, or is still being popped. */
  lemma MovedOutIsAccounted(s: System)
    requires PathInv(s)
    ensures multiset(MovedOut(s.ring)) + multiset(if s.worker.Delivering? then [s.worker.msg] else [])
         == multiset(Messages(s.checked)) + multiset(Processing(s))
  {
    var got := if s.worker.Got? then [s.worker.msg] else [];
    var held := if s.worker.Delivering? then [s.worker.msg] else [];
    ProcessingParts(s);
    CountParts(Messages(s.checked), got, held, s.ring.consumer.InHand());
  }

  lemma ProcessingParts(s: System)
    ensures Processing(s) == s.ring.consumer.InHand() + ((if s.worker.Got? then [s.worker.msg] else [])
                             + (if s.worker.Delivering? then [s.worker.msg] else []))
  {
  }

  lemma CountParts(checked: seq<Message>, got: seq<Message>, held: seq<Message>, inHand: seq<Message>)
    ensures multiset((checked + got) + inHand) + multiset(held)
         == multiset(checked) + multiset(inHand + (got + held))
  {
  }

  /** What was checked was suppressed, handed on, or is being handed on. */
  lemma CheckedIsAccounted(s: System)
    requires PathInv(s)
    ensures multiset(Messages(s.checked))
         == multiset(s.suppressed) + multiset(Handed(s)) + multiset(if s.worker.Delivering? then [s.worker.msg] else [])
  {
    AdmittedAndSuppressed(map[], s.checked);
    var passed := Messages(Admitted(map[], s.checked));
    var held := if s.worker.Delivering? then [s.worker.msg] else [];
    assert passed == Handed(s) + held;
  }

  /** Conservation: each accepted alarm is in exactly one place: queued, in the worker's hands,
      suppressed, handed on, or discarded with the queue. */
  lemma EveryAlarmHasOneFate(s: System)
    requires PathInv(s)
    ensures Consumed(s.ring) <= |s.ring.claims|
    ensures multiset(Values(s.ring.claims))
         == multiset(Queued(s)) + multiset(Processing(s)) + multiset(s.suppressed)
            + multiset(Handed(s)) + multiset(s.discarded)
  {
    AllClaims(s.ring);
    MovedOutIsAccounted(s);
    CheckedIsAccounted(s);
    Remaining(s);
    assert multiset(Values(s.ring.claims)) == multiset(MovedOut(s.ring)) + multiset(Queue(s.ring));
  }

  lemma Remaining(s: System)
    requires PathInv(s)
    ensures multiset(Queue(s.ring)) == multiset(Queued(s)) + multiset(s.discarded)
  {
  }

  /** The checked alarms are the first claims. */
  lemma CheckedIsPrefix(s: System)
    requires PathInv(s)
    ensures |s.checked| <= |s.ring.claims|
    ensures Messages(s.checked) == Values(s.ring.claims[..|s.checked|])
  {
    assert s.ring.delivered == Values(s.ring.claims[..s.ring.popped]);
    assert s.ring.claims[..|s.checked|] == s.ring.claims[..s.ring.popped][..|s.checked|];
    assert forall i | 0 <= i < |s.checked| :: Messages(s.checked)[i] == s.ring.delivered[i];
  }

  /** What a producer was told is accepted is among its claims, in order. */
  lemma SentIsClaimed(s: System, p: nat)
    requires PathInv(s) && p < |s.ring.producers|
    ensures s.ring.producers[p].sent <= ByOwner(s.ring.claims, p)
  {
  }

  lemma SinksHaveTheFilter(s: System, i: nat)
    requires PathInv(s) && !s.worker.Delivering? && i < |s.sinks|
    ensures s.sinks[i] == Messages(Admitted(map[], s.checked))
  {
  }

  /** End to end, for any number of producers, interceptors and exporters, any clock and any schedule
      with the lap hypothesis, stopped and destroyed at any point: the alarms that were checked are a
      prefix of the claim order, each interceptor and exporter has been handed the limiter's filter of
      that prefix (up to the one alarm being delivered), and every accepted alarm has one fate. */
  lemma AlarmPathIsCorrect(producers: nat, sinks: nat, es: seq<Event>)
    requires LapFreePath(Start(producers, sinks), es)
    ensures var s := RunPath(Start(producers, sinks), es);
            && |s.checked| <= |s.ring.claims|
            && Messages(s.checked) == Values(s.ring.claims[..|s.checked|])
            && SinksOk(s)
            && (!s.worker.Delivering? ==>
                  forall i | 0 <= i < |s.sinks| :: s.sinks[i] == Messages(Admitted(map[], s.checked)))
            && (forall p | 0 <= p < |s.ring.producers| ::
                  s.ring.producers[p].sent <= ByOwner(s.ring.claims, p))
            && Consumed(s.ring) <= |s.ring.claims|
            && multiset(Values(s.ring.claims))
               == multiset(Queued(s)) + multiset(Processing(s)) + multiset(s.suppressed)
                  + multiset(Handed(s)) + multiset(s.discarded)
  {
    StartInv(producers, sinks);
    RunPathInv(Start(producers, sinks), es);
    var s := RunPath(Start(producers, sinks), es);
    CheckedIsPrefix(s);
    EveryAlarmHasOneFate(s);
    forall i | 0 <= i < |s.sinks| && !s.worker.Delivering?
      ensures s.sinks[i] == Messages(Admitted(map[], s.checked))
    {
      SinksHaveTheFilter(s, i);
    }
    forall p | 0 <= p < |s.ring.producers|
      ensures s.ring.producers[p].sent <= ByOwner(s.ring.claims, p)
    {
      SentIsClaimed(s, p);
    }
  }
}
