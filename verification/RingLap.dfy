/**
 The lap hypothesis is exact. Indices carry no lap counter, so a compare-exchange that succeeds
 after fewer than `capacity` intervening claims is as good as one that saw nothing change, while
 exactly `capacity` intervening claims let it overrun the ring. The same staleness makes a refusal
 of TryEmplace say nothing about how full the ring is, unless the producer has no rivals.
 */
module RingLap {
  import opened Basics
  import opened ModularIndex
  import opened RingProtocol
  import opened RingSafety
  import opened RingFifo

  /** With fewer than `capacity` claims since the load, a winning compare-exchange means that nothing
      was claimed in between and that the full check passed earlier would pass now. */
  lemma FewerThanALapIsSafe<V>(s: State<V>, a: Action<V>)
    requires Inv(s) && Claims(s, a)
    requires |s.claims| - s.producers[a.p].pc.seen < s.capacity
    ensures s.producers[a.p].pc.seen == |s.claims|
    ensures (s.head + 1) % s.capacity != s.tail
    ensures |Step(s, a).claims| <= Step(s, a).popped + s.capacity - 1
  {
    ClaimIsFresh(s, a.p);
    FullCheckIsExact(s);
    ClaimInv(s, a.p);
  }

  /** A producer whose `head_` is fresh is refused exactly when the ring is full. */
  lemma FreshRefusalMeansFull<V>(s: State<V>, p: nat)
    requires Inv(s) && p < |s.producers| && s.producers[p].pc.Loaded?
    requires !s.producers[p].pc.blocking && s.producers[p].pc.seen == |s.claims|
    ensures ProducerStep(s, p, false).producers[p].pc.Idle? <==> |s.claims| == s.popped + s.capacity - 1
  {
    assert ProducerOk(s, p);
    FullCheckIsExact(s);
  }

  /** The next step of producer `p` makes TryEmplace return false. */
  predicate Refuses<V>(s: State<V>, p: nat) {
    && p < |s.producers| && s.producers[p].pc.Loaded? && !s.producers[p].pc.blocking
    && (s.producers[p].pc.head + 1) % s.capacity == s.tail
  }

  // ----- schedules of one whole call without interference

  /** TryEmplace up to and including its compare-exchange. */
  function Reserve<V>(p: nat, v: V): seq<Action<V>> {
    [Push(p, v, false)] + ([Produce(p, false)] + ([Produce(p, false)] + ([Produce(p, false)] + [])))
  }

  /** Construction and the store of the ready flag. */
  function Publish<V>(p: nat): seq<Action<V>> {
    [Produce(p, false)] + ([Produce(p, false)] + [])
  }

  function PushOnce<V>(p: nat, v: V): seq<Action<V>> {
    Reserve(p, v) + Publish(p)
  }

  function PopOnce<V>(): seq<Action<V>> {
    [StartPop(false)] + ([Consume] + ([Consume] + ([Consume] + ([Consume] + ([Consume] + [])))))
  }

  function PushMany<V>(p: nat, v: V, k: nat): seq<Action<V>> {
    if k == 0 then [] else PushOnce(p, v) + PushMany(p, v, k - 1)
  }

  lemma RunCons<V>(s: State<V>, a: Action<V>, acts: seq<Action<V>>)
    ensures Run(s, [a] + acts) == Run(Step(s, a), acts)
    ensures LapFree(s, [a] + acts) <==> LapFreeStep(s, a) && LapFree(Step(s, a), acts)
  {
    assert ([a] + acts)[1..] == acts;
  }

  lemma RunProduce<V>(s: State<V>, p: nat, acts: seq<Action<V>>)
    requires p < |s.producers|
    ensures Run(s, [Produce(p, false)] + acts) == Run(ProducerStep(s, p, false), acts)
    ensures LapFree(s, [Produce(p, false)] + acts)
       <==> LapFreeStep(s, Produce(p, false)) && LapFree(ProducerStep(s, p, false), acts)
  {
    RunCons(s, Produce(p, false), acts);
  }

  lemma RunConsume<V>(s: State<V>, acts: seq<Action<V>>)
    ensures Run(s, [Consume] + acts) == Run(ConsumerStep(s), acts)
    ensures LapFree(s, [Consume] + acts) <==> LapFree(ConsumerStep(s), acts)
  {
    RunCons(s, Consume, acts);
  }

  lemma {:induction false} RunConcat<V>(s: State<V>, a: seq<Action<V>>, b: seq<Action<V>>)
    ensures Run(s, a + b) == Run(Run(s, a), b)
    ensures LapFree(s, a + b) <==> LapFree(s, a) && LapFree(Run(s, a), b)
    decreases |a|
  {
    if a == [] {
      assert a + b == b;
    } else {
      var first, more := a[0], a[1..];
      RunConcat(Step(s, first), more, b);
      assert a == [first] + more;
      Associate([first], more, b);
      RunCons(s, first, more + b);
      RunCons(s, first, more);
    }
  }

  /** Everything but producer `p` and the claims is as before. */
  ghost predicate OthersKept<V>(s: State<V>, t: State<V>, p: nat) {
    && t.capacity == s.capacity && t.popped == s.popped
    && t.consumer == s.consumer && t.delivered == s.delivered
    && |t.producers| == |s.producers|
    && (forall q | 0 <= q < |s.producers| && q != p :: t.producers[q] == s.producers[q])
  }

  lemma ReserveRuns<V>(s: State<V>, p: nat, v: V)
    requires p < |s.producers| && s.producers[p].pc.Idle?
    requires (s.head + 1) % s.capacity != s.tail
    ensures LapFree(s, Reserve(p, v))
    ensures OthersKept(s, Run(s, Reserve(p, v)), p)
    ensures Run(s, Reserve(p, v)).claims == s.claims + [Claim(p, v)]
    ensures Run(s, Reserve(p, v)).producers[p].pc == Claimed(v, s.head, |s.claims|)
  {
    var s1 := SetPc(s, p, Loading(v, false));
    var s2 := SetPc(s, p, Loaded(v, false, s.head, |s.claims|));
    var s3 := SetPc(s, p, Checked(v, false, s.head, |s.claims|));
    LoadsAndChecks(s, p, v);
    RunProduce(s3, p, []);
    RunProduce(s2, p, [Produce(p, false)] + []);
    RunProduce(s1, p, [Produce(p, false)] + ([Produce(p, false)] + []));
    RunCons(s, Push(p, v, false), [Produce(p, false)] + ([Produce(p, false)] + ([Produce(p, false)] + [])));
  }

  lemma LoadsAndChecks<V>(s: State<V>, p: nat, v: V)
    requires p < |s.producers| && s.producers[p].pc.Idle?
    requires (s.head + 1) % s.capacity != s.tail
    ensures Step(s, Push(p, v, false)) == SetPc(s, p, Loading(v, false))
    ensures ProducerStep(SetPc(s, p, Loading(v, false)), p, false)
         == SetPc(s, p, Loaded(v, false, s.head, |s.claims|))
    ensures ProducerStep(SetPc(s, p, Loaded(v, false, s.head, |s.claims|)), p, false)
         == SetPc(s, p, Checked(v, false, s.head, |s.claims|))
  {
    assert SetPc(SetPc(s, p, Loading(v, false)), p, Loaded(v, false, s.head, |s.claims|))
        == SetPc(s, p, Loaded(v, false, s.head, |s.claims|));
    assert SetPc(SetPc(s, p, Loaded(v, false, s.head, |s.claims|)), p, Checked(v, false, s.head, |s.claims|))
        == SetPc(s, p, Checked(v, false, s.head, |s.claims|));
  }

  lemma PublishLands<V>(s: State<V>, p: nat)
    requires Inv(s) && p < |s.producers| && s.producers[p].pc.Claimed?
    ensures LapFree(s, Publish(p)) && Inv(Run(s, Publish(p)))
    ensures OthersKept(s, Run(s, Publish(p)), p)
    ensures Run(s, Publish(p)).claims == s.claims
    ensures Run(s, Publish(p)).producers[p].pc.Idle?
  {
    var step := Produce(p, false);
    var s1 := Step(s, step);
    RunCons(s1, step, []);
    RunCons(s, step, [step] + []);
    RunInv(s, Publish(p));
  }

  /** An undisturbed TryEmplace on a ring with room claims and publishes one value. */
  lemma PushLands<V>(s: State<V>, p: nat, v: V)
    requires Inv(s) && p < |s.producers| && s.producers[p].pc.Idle?
    requires |s.claims| + 2 <= s.popped + s.capacity
    ensures LapFree(s, PushOnce(p, v)) && Inv(Run(s, PushOnce(p, v)))
    ensures OthersKept(s, Run(s, PushOnce(p, v)), p)
    ensures Run(s, PushOnce(p, v)).claims == s.claims + [Claim(p, v)]
    ensures Run(s, PushOnce(p, v)).producers[p].pc.Idle?
  {
    FullCheckIsExact(s);
    ReserveRuns(s, p, v);
    RunInv(s, Reserve(p, v));
    PublishLands(Run(s, Reserve(p, v)), p);
    RunConcat(s, Reserve(p, v), Publish(p));
  }

  /** After a TryPop that found `v` in the front slot. */
  function AfterPop<V>(s: State<V>, v: V): State<V> {
    s.(tail := (s.tail + 1) % s.capacity, slots := s.slots[s.tail := Slot(Moved, false)],
       popped := s.popped + 1, delivered := s.delivered + [v], consumer := Resting)
  }

  /** The loads and stores of an undisturbed TryPop that finds `v` published in the front slot. */
  lemma PopRuns<V>(s: State<V>, v: V)
    requires s.consumer.Resting? && s.head != s.tail && s.slots[s.tail] == Slot(Live(v), true)
    ensures LapFree(s, PopOnce()) && Run(s, PopOnce()) == AfterPop(s, v)
  {
    var take := [Consume] + ([Consume] + ([Consume] + []));
    RunCons(s, StartPop(false), [Consume] + ([Consume] + take));
    LooksAtFront(s, take);
    TakesFront(s, v);
  }

  lemma LooksAtFront<V>(s: State<V>, acts: seq<Action<V>>)
    requires s.head != s.tail && s.slots[s.tail].ready
    ensures Run(s.(consumer := PopTail(false, s.tail)), [Consume] + ([Consume] + acts))
         == Run(s.(consumer := PopReady(s.tail)), acts)
    ensures LapFree(s.(consumer := PopTail(false, s.tail)), [Consume] + ([Consume] + acts))
       <==> LapFree(s.(consumer := PopReady(s.tail)), acts)
  {
    RunConsume(s.(consumer := PopTail(false, s.tail)), [Consume] + acts);
    RunConsume(s.(consumer := PopNonEmpty(false, s.tail)), acts);
  }

  lemma TakesFront<V>(s: State<V>, v: V)
    requires s.slots[s.tail] == Slot(Live(v), true)
    ensures var s3 := s.(consumer := PopReady(s.tail));
            && Run(s3, [Consume] + ([Consume] + ([Consume] + []))) == AfterPop(s, v)
            && LapFree(s3, [Consume] + ([Consume] + ([Consume] + [])))
  {
    var i := s.tail;
    var s4 := s.(consumer := PopTaken(i, v), slots := s.slots[i := Slot(Moved, true)]);
    var s5 := s.(consumer := PopCleared(i, v), slots := s.slots[i := Slot(Moved, false)]);
    assert s4.slots[i := Slot(Moved, false)] == s5.slots;
    RunConsume(s.(consumer := PopReady(i)), [Consume] + ([Consume] + []));
    RunConsume(s4, [Consume] + []);
    RunConsume(s5, []);
  }

  /** An undisturbed TryPop of a published front delivers it. */
  lemma PopLands<V>(s: State<V>)
    requires Inv(s) && s.consumer.Resting? && s.popped < |s.claims| && !Unpublished(s, s.popped)
    ensures var t := Run(s, PopOnce());
            && LapFree(s, PopOnce()) && Inv(t) && t.capacity == s.capacity
            && t.claims == s.claims && t.producers == s.producers
            && t.popped == s.popped + 1 && t.consumer.Resting?
            && t.delivered == s.delivered + [s.claims[s.popped].value]
  {
    HeadMeetsTail(s);
    assert SlotOk(s, s.popped);
    PopRuns(s, s.claims[s.popped].value);
    RunInv(s, PopOnce());
  }

  /** From `s` to `t`, producer `p` has made the `k` next claims and is idle again. */
  ghost predicate Pushed<V>(s: State<V>, t: State<V>, p: nat, k: nat) {
    && Inv(t) && OthersKept(s, t, p)
    && p < |t.producers| && t.producers[p].pc.Idle?
    && s.claims <= t.claims && |t.claims| == |s.claims| + k
    && (forall j | |s.claims| <= j < |t.claims| :: t.claims[j].owner == p)
  }

  lemma PushedOnce<V>(s: State<V>, p: nat, v: V)
    requires Inv(s) && p < |s.producers| && s.producers[p].pc.Idle?
    requires |s.claims| + 2 <= s.popped + s.capacity
    ensures LapFree(s, PushOnce(p, v)) && Pushed(s, Run(s, PushOnce(p, v)), p, 1)
  {
    PushLands(s, p, v);
  }

  lemma PushedConcat<V>(s: State<V>, m: State<V>, t: State<V>, p: nat, k: nat)
    requires Pushed(s, m, p, 1) && Pushed(m, t, p, k)
    ensures Pushed(s, t, p, k + 1)
  {
    assert m.claims[|s.claims|].owner == p;
  }

  lemma {:induction false} PushManyLands<V>(s: State<V>, p: nat, v: V, k: nat)
    requires Inv(s) && p < |s.producers| && s.producers[p].pc.Idle?
    requires |s.claims| + k + 1 <= s.popped + s.capacity
    ensures LapFree(s, PushMany(p, v, k)) && Pushed(s, Run(s, PushMany(p, v, k)), p, k)
    decreases k
  {
    if k > 0 {
      PushedOnce(s, p, v);
      var m := Run(s, PushOnce(p, v));
      assert |m.claims| + k <= m.popped + m.capacity;
      PushManyLands(m, p, v, k - 1);
      RunConcat(s, PushOnce(p, v), PushMany(p, v, k - 1));
      PushedConcat(s, m, Run(m, PushMany(p, v, k - 1)), p, k - 1);
    }
  }

  // ----- the two counterexample schedules

  /** Producer 0 loads `head_`, passes the full check, and stops before its compare-exchange. */
  function Pause<V>(v: V, n: nat): seq<Action<V>> {
    [Push(0, v, false)] + ([Produce(0, false)] + if n == 0 then [] else [Produce(0, false)] + [])
  }

  lemma PauseLands<V>(capacity: nat, producers: nat, v: V, n: nat)
    requires capacity >= 2 && producers >= 2 && n <= 1
    ensures var s := Init<V>(capacity, producers);
            var t := Run(s, Pause(v, n));
            && LapFree(s, Pause(v, n)) && Paused(t) && t.capacity == capacity
            && t.producers[0].pc == if n == 0 then Loaded(v, false, 0, 0) else Checked(v, false, 0, 0)
  {
    var s := Init<V>(capacity, producers);
    InitInv<V>(capacity, producers);
    if n == 0 {
      LoadLands(capacity, producers, v);
    } else {
      CheckLands(capacity, producers, v);
    }
    RunInv(s, Pause(v, n));
  }

  lemma LoadLands<V>(capacity: nat, producers: nat, v: V)
    requires capacity >= 2 && producers >= 2
    ensures var s := Init<V>(capacity, producers);
            LapFree(s, Pause(v, 0)) && Run(s, Pause(v, 0)) == SetPc(s, 0, Loaded(v, false, 0, 0))
  {
    var s := Init<V>(capacity, producers);
    var s1 := SetPc(s, 0, Loading(v, false));
    var s2 := SetPc(s, 0, Loaded(v, false, 0, 0));
    assert Step(s, Push(0, v, false)) == s1;
    assert Step(s1, Produce(0, false)) == s2;
    assert Pause(v, 0) == [Push(0, v, false)] + ([Produce(0, false)] + []);
    RunCons(s1, Produce(0, false), []);
    RunCons(s, Push(0, v, false), [Produce(0, false)] + []);
  }

  lemma CheckLands<V>(capacity: nat, producers: nat, v: V)
    requires capacity >= 2 && producers >= 2
    ensures var s := Init<V>(capacity, producers);
            LapFree(s, Pause(v, 1)) && Run(s, Pause(v, 1)) == SetPc(s, 0, Checked(v, false, 0, 0))
  {
    var s := Init<V>(capacity, producers);
    var s2 := SetPc(s, 0, Loaded(v, false, 0, 0));
    CapacityWraps(capacity);
    LoadLands(capacity, producers, v);
    assert Step(s2, Produce(0, false)) == SetPc(s, 0, Checked(v, false, 0, 0));
    var none: seq<Action<V>> := [];
    var last := [Produce(0, false)] + none;
    assert Pause(v, 1) == Pause(v, 0) + last;
    RunConcat(s, Pause(v, 0), last);
    RunCons(s2, Produce(0, false), none);
  }

  /** While producer 0 is paused, producer 1 fills the ring, one value is popped, and producer 1
      pushes once more: exactly `capacity` claims. */
  function Refill<V>(capacity: nat, v: V): seq<Action<V>>
    requires capacity >= 2
  {
    PushMany(1, v, capacity - 1) + (PopOnce() + PushOnce(1, v))
  }

  /** An empty ring with producer 0 paused at position 0 and producer 1 idle. */
  ghost predicate Paused<V>(s: State<V>) {
    && Inv(s) && s.claims == [] && s.popped == 0 && s.consumer.Resting?
    && |s.producers| >= 2 && s.producers[1].pc.Idle?
  }

  /** One value was popped since `s`, `n` claims are made, and producer 0 and the size of the ring are
      as they were. */
  ghost predicate OnePopped<V>(s: State<V>, t: State<V>, n: nat) {
    && Inv(t) && t.capacity == s.capacity
    && 2 <= |t.producers| == |s.producers| && t.producers[0] == s.producers[0]
    && |t.claims| == n && t.popped == 1 && t.consumer.Resting?
  }

  lemma RefillLands<V>(s: State<V>, v: V)
    requires Paused(s)
    ensures LapFree(s, Refill(s.capacity, v))
    ensures OnePopped(s, Run(s, Refill(s.capacity, v)), s.capacity)
  {
    var push := PushMany(1, v, s.capacity - 1);
    FillLands(s, v, push);
    TurnLands(s, v, push, PopOnce() + PushOnce(1, v));
  }

  lemma TurnLands<V>(s: State<V>, v: V, push: seq<Action<V>>, turn: seq<Action<V>>)
    requires LapFree(s, push) && OthersKept(s, Run(s, push), 1)
    requires OneToPop(Run(s, push)) && turn == PopOnce() + PushOnce(1, v)
    ensures LapFree(s, push + turn)
    ensures OnePopped(s, Run(s, push + turn), |Run(s, push).claims| + 1)
  {
    OneOutOneIn(Run(s, push), v, turn);
    ThenOnePopped(s, push, turn, |Run(s, push).claims| + 1);
  }

  lemma ThenOnePopped<V>(s: State<V>, a: seq<Action<V>>, b: seq<Action<V>>, n: nat)
    requires LapFree(s, a) && OthersKept(s, Run(s, a), 1) && |s.producers| >= 2
    requires LapFree(Run(s, a), b) && OnePopped(Run(s, a), Run(Run(s, a), b), n)
    ensures LapFree(s, a + b) && OnePopped(s, Run(s, a + b), n)
  {
    RunConcat(s, a, b);
  }

  /** A published front, an idle consumer, and producer 1 idle. */
  ghost predicate OneToPop<V>(s: State<V>) {
    && Inv(s) && s.popped == 0 < |s.claims| && s.consumer.Resting? && !Unpublished(s, 0)
    && |s.producers| >= 2 && s.producers[1].pc.Idle?
  }

  lemma FillLands<V>(s: State<V>, v: V, push: seq<Action<V>>)
    requires Paused(s) && push == PushMany(1, v, s.capacity - 1)
    ensures LapFree(s, push) && OneToPop(Run(s, push))
    ensures OthersKept(s, Run(s, push), 1) && |Run(s, push).claims| == s.capacity - 1
  {
    PushManyLands(s, 1, v, s.capacity - 1);
    assert Run(s, push).claims[0].owner == 1;
  }

  lemma OneOutOneIn<V>(s: State<V>, v: V, turn: seq<Action<V>>)
    requires OneToPop(s) && turn == PopOnce() + PushOnce(1, v)
    ensures LapFree(s, turn) && OnePopped(s, Run(s, turn), |s.claims| + 1)
  {
    PopLands(s);
    PushLands(Run(s, PopOnce()), 1, v);
    RunConcat(s, PopOnce(), PushOnce(1, v));
  }

  /** For every capacity, and from two producers on, there is a run that obeys the hypothesis up to one
      claim with exactly `capacity` intervening claims, and that claim makes a ring of `capacity`
      undelivered values look empty: TryPop then returns false at its first test. */
  lemma OneLapOverruns<V>(capacity: nat, producers: nat, v: V)
    requires capacity >= 2 && producers >= 2
    ensures LapFree(Init<V>(capacity, producers), Pause(v, 1) + Refill(capacity, v))
    ensures var s := Run(Init<V>(capacity, producers), Pause(v, 1) + Refill(capacity, v));
            && Claims(s, Produce(0, false))
            && |s.claims| - s.producers[0].pc.seen == capacity
            && var t := Step(s, Produce(0, false));
            && t.capacity == capacity && t.head == t.tail
            && |t.claims| - t.popped == capacity
            && t.consumer.Resting?
            && Step(Step(t, StartPop(false)), Consume) == t
  {
    var s0 := Init<V>(capacity, producers);
    PauseLands(capacity, producers, v, 1);
    var s1 := Run(s0, Pause(v, 1));
    RefillLands(s1, v);
    RunInv(s1, Refill(capacity, v));
    RunConcat(s0, Pause(v, 1), Refill(capacity, v));
    var s := Run(s1, Refill(capacity, v));
    CapacityWraps(capacity);
  }

  lemma CapacityWraps(n: nat)
    requires n >= 2
    ensures n % n == 0 && 1 % n == 1 && 0 % n == 0
  {
    QuotientRemainderUnique(n, n, 1, 0);
    QuotientRemainderUnique(1, n, 0, 1);
  }

  /** Producer 0 loads `head_`; then one value of producer 1 goes through the ring. */
  function StaleLoad<V>(v: V): seq<Action<V>> {
    Pause(v, 0) + (PushOnce(1, v) + PopOnce())
  }

  lemma PassThrough<V>(s: State<V>, v: V)
    requires Paused(s)
    ensures LapFree(s, PushOnce(1, v) + PopOnce())
    ensures OnePopped(s, Run(s, PushOnce(1, v) + PopOnce()), 1)
  {
    PushLands(s, 1, v);
    PopLands(Run(s, PushOnce(1, v)));
    RunConcat(s, PushOnce(1, v), PopOnce());
  }

  /** A refusal does not mean full: for every capacity, and from two producers on, a lap-free run
      ends in TryEmplace refusing a value although the ring is empty. */
  lemma StaleRefusal<V>(capacity: nat, producers: nat, v: V)
    requires capacity >= 2 && producers >= 2
    ensures LapFree(Init<V>(capacity, producers), StaleLoad(v))
    ensures var s := Run(Init<V>(capacity, producers), StaleLoad(v));
            && Inv(s)
            && |s.claims| == Consumed(s) && s.head == s.tail
            && |s.producers| == producers && s.producers[0].pc == Loaded(v, false, 0, 0)
            && Step(s, Produce(0, false)) == SetPc(s, 0, Idle)
            && Refuses(s, 0) && !IsFull(s)
  {
    var s0 := Init<V>(capacity, producers);
    PauseLands(capacity, producers, v, 0);
    var s1 := Run(s0, Pause(v, 0));
    PassThrough(s1, v);
    RunConcat(s0, Pause(v, 0), PushOnce(1, v) + PopOnce());
    var s := Run(s0, StaleLoad(v));
    RunKeepsProducers(s0, StaleLoad(v));
    HeadMeetsTail(s);
    CapacityWraps(capacity);
    assert s.tail == 1 && s.popped == 1 && s.capacity == capacity;
  }

  // ----- exactly when a refusal means full

  /** A refused producer may conclude that the ring is full exactly if whole laps were claimed since its
      load. */
  lemma RefusalMeansFullJustAfterWholeLaps<V>(s: State<V>, p: nat)
    requires Inv(s) && Refuses(s, p)
    ensures s.producers[p].pc.seen <= |s.claims|
    ensures IsFull(s) <==> (|s.claims| - s.producers[p].pc.seen) % s.capacity == 0
  {
    var seen := s.producers[p].pc.seen;
    assert ProducerOk(s, p);
    FullCheckIsExact(s);
    AddWraps(seen, 1, s.capacity);
    AddWraps(|s.claims|, 1, s.capacity);
    SameSlotWholeLaps(seen + 1, |s.claims| + 1, s.capacity);
  }

  /** Within a lap of its load, that is exactly if nothing was claimed since. */
  lemma RefusalMeansFullJustWhenFresh<V>(s: State<V>, p: nat)
    requires Inv(s) && Refuses(s, p)
    requires |s.claims| - s.producers[p].pc.seen < s.capacity
    ensures ProducerStep(s, p, false).producers[p].pc.Idle?
    ensures IsFull(s) <==> s.producers[p].pc.seen == |s.claims|
  {
    RefusalMeansFullJustAfterWholeLaps(s, p);
    var since := |s.claims| - s.producers[p].pc.seen;
    QuotientRemainderUnique(since, s.capacity, 0, since);
  }

  /** A producer without rivals always has a fresh head. */
  ghost predicate Alone<V>(s: State<V>) {
    |s.producers| <= 1 &&
    forall p | 0 <= p < |s.producers| ::
      s.producers[p].pc.Loaded? || s.producers[p].pc.Checked? ==> s.producers[p].pc.seen == |s.claims|
  }

  lemma StepAlone<V>(s: State<V>, a: Action<V>)
    requires Alone(s)
    ensures Alone(Step(s, a))
  {
    if a.Produce? && a.p < |s.producers| {
      ProducerStepAlone(s, a.p, a.spurious);
    } else if a.Consume? {
      ConsumerKeepsProducers(s);
    }
  }

  lemma ProducerStepAlone<V>(s: State<V>, p: nat, spurious: bool)
    requires Alone(s) && p < |s.producers|
    ensures Alone(ProducerStep(s, p, spurious))
  {
  }

  lemma {:induction false} RunAlone<V>(s: State<V>, acts: seq<Action<V>>)
    requires Alone(s)
    ensures Alone(Run(s, acts))
    decreases |acts|
  {
    if acts != [] {
      StepAlone(s, acts[0]);
      RunAlone(Step(s, acts[0]), acts[1..]);
    }
  }

  lemma {:induction false} AloneIsLapFree<V>(s: State<V>, acts: seq<Action<V>>)
    requires Alone(s)
    ensures LapFree(s, acts)
    decreases |acts|
  {
    if acts != [] {
      StepAlone(s, acts[0]);
      AloneIsLapFree(Step(s, acts[0]), acts[1..]);
    }
  }

  /** One producer or none keeps every promise in every run. */
  lemma AloneIsSafe<V>(capacity: nat, producers: nat, acts: seq<Action<V>>)
    requires capacity >= 2 && producers <= 1
    ensures Inv(Run(Init<V>(capacity, producers), acts))
  {
    var s0 := Init<V>(capacity, producers);
    InitInv<V>(capacity, producers);
    AloneIsLapFree(s0, acts);
    RunInv(s0, acts);
  }

  /**
   The bound of the ring, as a caller can know it: no run overruns it, whatever laps the producers fall behind,
   if and only if there is no more than one producer.
   */
  lemma NoOverrunJustWhenAlone<V>(capacity: nat, producers: nat, v: V)
    requires capacity >= 2
    ensures (forall acts: seq<Action<V>> ::
               var s := Run(Init<V>(capacity, producers), acts); |s.claims| < s.popped + s.capacity)
       <==> producers <= 1
  {
    var s0 := Init<V>(capacity, producers);
    if producers <= 1 {
      forall acts: seq<Action<V>>
        ensures var s := Run(s0, acts); |s.claims| < s.popped + s.capacity
      {
        AloneIsSafe(capacity, producers, acts);
      }
    } else {
      var acts := OverrunsTheRing(capacity, producers, v);
    }
  }

  lemma OverrunsTheRing<V>(capacity: nat, producers: nat, v: V) returns (acts: seq<Action<V>>)
    requires capacity >= 2 && producers >= 2
    ensures var s := Run(Init<V>(capacity, producers), acts); |s.claims| >= s.popped + s.capacity
  {
    var s0, before := Init<V>(capacity, producers), Pause(v, 1) + Refill(capacity, v);
    OneLapOverruns(capacity, producers, v);
    acts := before + ([Produce(0, false)] + []);
    RunThenProduce(s0, before, 0);
  }

  lemma RunThenProduce<V>(s: State<V>, before: seq<Action<V>>, p: nat)
    ensures Run(s, before + ([Produce(p, false)] + [])) == Step(Run(s, before), Produce(p, false))
  {
    RunConcat(s, before, [Produce(p, false)] + []);
    RunCons(Run(s, before), Produce(p, false), []);
  }

  lemma AloneRefusalMeansFull<V>(capacity: nat, producers: nat, acts: seq<Action<V>>, p: nat)
    requires capacity >= 2 && producers <= 1
    requires Refuses(Run(Init<V>(capacity, producers), acts), p)
    ensures IsFull(Run(Init<V>(capacity, producers), acts))
  {
    var s0 := Init<V>(capacity, producers);
    AloneIsSafe(capacity, producers, acts);
    RunAlone(s0, acts);
    RefusalMeansFullJustWhenFresh(Run(s0, acts), p);
  }

  /**
   The exact condition a caller can know: in all runs that keep the lap hypothesis, every refusal
   means that the ring is full, if and only if there is no more than one producer.
   */
  lemma RefusalsMeanFullJustWhenAlone<V>(capacity: nat, producers: nat, v: V)
    requires capacity >= 2
    ensures (forall acts: seq<Action<V>>, p: nat |
               LapFree(Init<V>(capacity, producers), acts) && Refuses(Run(Init<V>(capacity, producers), acts), p) ::
               IsFull(Run(Init<V>(capacity, producers), acts)))
       <==> producers <= 1
  {
    var s0 := Init<V>(capacity, producers);
    if producers <= 1 {
      forall acts: seq<Action<V>>, p: nat | LapFree(s0, acts) && Refuses(Run(s0, acts), p)
        ensures IsFull(Run(s0, acts))
      {
        AloneRefusalMeansFull(capacity, producers, acts, p);
      }
    } else {
      StaleRefusal(capacity, producers, v);
      assert Refuses(Run(s0, StaleLoad(v)), 0);
    }
  }
}
