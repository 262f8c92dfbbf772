/**
 src/queue.h in its own form: an object with a slot array and two indices, whose methods are loops
 over single atomic accesses. Between any two accesses of a method the other threads may take any
 number of steps; which ones is a parameter, so every contract below holds for every schedule.
 Steps that would break the lap hypothesis are left out of the schedule.
 */
module MpscQueue {
  import opened Basics
  import opened ModularIndex
  import opened RingProtocol
  import opened RingSafety
  import opened RingFifo

  /** What the other threads do between two accesses; `spurious` makes the next weak
      compare-exchange fail for no reason. */
  datatype Gap<V> = Gap(acts: seq<Action<V>>, spurious: bool)

  function GapAt<V>(gaps: seq<Gap<V>>, i: nat): Gap<V> {
    if i < |gaps| then gaps[i] else Gap([], false)
  }

  /** Every claim that was published stays published, and claims only grow. */
  ghost predicate Later<V>(s: Memory<V>, t: Memory<V>) {
    && t.capacity == s.capacity
    && |t.producers| == |s.producers|
    && s.claims <= t.claims
    && (forall j | 0 <= j < |s.claims| && !Unpublished(s, j) :: !Unpublished(t, j))
  }

  /** The consumer's side is untouched. */
  ghost predicate ConsumerKept<V>(s: Memory<V>, t: Memory<V>) {
    && t.consumer == s.consumer && t.tail == s.tail
    && t.popped == s.popped && t.delivered == s.delivered
  }

  /** Producer `p` has not moved and has made no claim. */
  ghost predicate ProducerKept<V>(s: Memory<V>, t: Memory<V>, p: nat) {
    && p < |s.producers| == |t.producers|
    && t.producers[p] == s.producers[p]
    && s.claims <= t.claims
    && (forall j | |s.claims| <= j < |t.claims| :: t.claims[j].owner != p)
  }

  /** Between `s` and `t` the full test came out true: `head_` was read in `loaded`, `tail_` later in
      `tested`, and the slot behind the one was the other. */
  ghost predicate SeenFull<V>(s: Memory<V>, loaded: State<V>, tested: State<V>, t: Memory<V>) {
    && Inv(loaded) && Inv(tested)
    && Later(s, loaded) && Later(loaded, tested) && Later(tested, t)
    && |tested.claims| - |loaded.claims| < s.capacity
    && (loaded.head + 1) % s.capacity == tested.tail
  }

  /** Nobody else acts in the gap, and no compare-exchange fails for no reason. */
  predicate Undisturbed<V>(gap: Gap<V>) {
    gap.acts == [] && !gap.spurious
  }

  predicate NoneDisturbs<V>(gaps: seq<Gap<V>>) {
    forall i | 0 <= i < |gaps| :: Undisturbed(gaps[i])
  }

  /** The first `k` undelivered positions are all published. */
  ghost predicate Drainable<V>(s: Memory<V>, k: nat) {
    && s.popped + k <= |s.claims|
    && (forall j | s.popped <= j < s.popped + k :: !Unpublished(s, j))
  }

  lemma StepIsLater<V>(s: State<V>, a: Action<V>)
    requires Inv(s) && LapFreeStep(s, a)
    ensures Inv(Step(s, a)) && Later(s, Step(s, a))
  {
    StepInv(s, a);
    if a.Produce? && a.p < |s.producers| {
      ProducerStepIsLater(s, a.p, a.spurious);
    } else if a.Consume? {
      ConsumerKeepsProducers(s);
    }
  }

  lemma ProducerStepIsLater<V>(s: State<V>, p: nat, spurious: bool)
    requires Inv(s) && p < |s.producers|
    ensures Later(s, ProducerStep(s, p, spurious))
  {
    if Claims(s, Produce(p, spurious)) {
      ClaimEffect(s, Produce(p, spurious));
    } else {
      ProducerKeepsAccepted(s, p, spurious);
    }
  }

  lemma DrainableStays<V>(s: Memory<V>, t: Memory<V>, k: nat)
    requires Later(s, t) && t.popped == s.popped && Drainable(s, k)
    ensures Drainable(t, k)
  {
  }

  /** One pass through the loop of TryEmplace. */
  datatype Attempt = Refused | Lost | Won

  /** Producer `p` has its pc set to `pc`, has claimed nothing, and nothing else of its own changed. */
  ghost predicate Stands<V>(s: Memory<V>, t: Memory<V>, p: nat, pc: ProducerPc<V>) {
    && p < |s.producers| == |t.producers|
    && t.producers[p] == s.producers[p].(pc := pc)
    && s.claims <= t.claims
    && (forall j | |s.claims| <= j < |t.claims| :: t.claims[j].owner != p)
  }

  /** The newest claim is producer `p`'s only new one. */
  ghost predicate WonBy<V>(s: Memory<V>, t: Memory<V>, p: nat, v: V) {
    && p < |s.producers| == |t.producers|
    && |s.claims| < |t.claims| && s.claims <= t.claims
    && t.claims[|t.claims| - 1] == Claim(p, v)
    && (forall j | |s.claims| <= j < |t.claims| - 1 :: t.claims[j].owner != p)
    && t.producers[p].pc.Claimed? && t.producers[p].pc.value == v
    && t.producers[p].pc.ticket == |t.claims| - 1
    && t.producers[p].sent == s.producers[p].sent
  }

  /** What attempts of producer `p` leave behind. */
  ghost predicate EndsAs<V>(s: Memory<V>, t: Memory<V>, p: nat, v: V, r: Attempt, loaded: State<V>, tested: State<V>) {
    match r
    case Lost => Stands(s, t, p, Loading(v, false))
    case Won => WonBy(s, t, p, v)
    case Refused => Stands(s, t, p, Idle) && SeenFull(s, loaded, tested, t)
  }

  lemma AttemptsChain<V>(s: Memory<V>, m: Memory<V>, t: Memory<V>, p: nat, v: V, r: Attempt,
                         loaded: State<V>, tested: State<V>)
    requires Later(s, m) && Later(m, t)
    requires Stands(s, m, p, Loading(v, false)) && EndsAs(m, t, p, v, r, loaded, tested)
    ensures EndsAs(s, t, p, v, r, loaded, tested)
  {
  }

  /** Thread `p` is not the one that acts. */
  predicate NotBy<V>(a: Action<V>, p: nat) {
    !((a.Push? || a.Produce?) && a.p == p)
  }

  /** If producer `p` has loaded `head_`, fewer than a ring's worth of claims were made since. */
  predicate WithinLap<V>(producers: seq<Producer<V>>, claims: nat, n: nat, p: nat)
    requires p < |producers|
  {
    var pc := producers[p].pc;
    pc.Loaded? || pc.Checked? ==> claims - pc.seen < n
  }

  lemma OthersKeepProducer<V>(s: State<V>, a: Action<V>, p: nat)
    requires p < |s.producers| && NotBy(a, p)
    ensures ProducerKept(s, Step(s, a), p)
    ensures |Step(s, a).claims| <= |s.claims| + if a.Produce? then 1 else 0
  {
    if Claims(s, a) {
      ClaimEffect(s, a);
    } else {
      StepKeepsAccepted(s, a);
    }
  }

  /** What the move of the next value does, when the scan has found its slot ready. */
  lemma TakesAt<V>(s: State<V>, t: nat, max: nat, bulk: seq<V>, i: nat) returns (r: State<V>)
    requires Inv(s) && s.consumer == BulkReady(t, max, bulk) && i == (t + |bulk|) % s.capacity
    ensures s.slots[i].cell.Live?
    ensures r == s.(consumer := BulkTaken(t, max, bulk + [s.slots[i].cell.value]),
                    slots := s.slots[i := s.slots[i].(cell := Moved)])
    ensures Inv(r) && Later(s, r)
  {
    TakeStep(s, t, max, bulk, i);
    StepIsLater(s, Consume);
    r := ConsumerStep(s);
  }

  lemma TakeStep<V>(s: State<V>, t: nat, max: nat, bulk: seq<V>, i: nat)
    requires Inv(s) && s.consumer == BulkReady(t, max, bulk) && i == (t + |bulk|) % s.capacity
    ensures s.slots[i].cell.Live?
    ensures ConsumerStep(s) == s.(consumer := BulkTaken(t, max, bulk + [s.slots[i].cell.value]),
                                  slots := s.slots[i := s.slots[i].(cell := Moved)])
  {
    AddWraps(s.popped, |bulk|, s.capacity);
    ReadyMeansNext(s);
  }

  /** What the full check decides. */
  lemma ChecksAt<V>(s: State<V>, p: nat, v: V, h: nat, seen: nat, full: bool) returns (r: State<V>)
    requires Inv(s) && p < |s.producers| && s.producers[p].pc == Loaded(v, false, h, seen)
    requires full <==> (h + 1) % s.capacity == s.tail
    ensures r == SetPc(s, p, if full then Idle else Checked(v, false, h, seen))
    ensures Inv(r) && Later(s, r)
  {
    StepIsLater(s, Produce(p, false));
    r := ProducerStep(s, p, false);
  }

  /** What the store of `tail_` ends. */
  lemma EndsWith<V>(s: State<V>, next: nat, out: seq<V>) returns (r: State<V>)
    requires Inv(s) && (s.consumer.PopCleared? || s.consumer.BulkEnd?) && out == s.consumer.InHand()
    requires next == (s.consumer.tail + |out|) % s.capacity
    ensures r == s.(consumer := Resting, tail := next, popped := s.popped + |out|, delivered := s.delivered + out)
    ensures Inv(r) && Later(s, r)
    ensures s.popped + |out| == Consumed(s) <= |s.claims| && out == Values(s.claims[s.popped..Consumed(s)])
  {
    StepIsLater(s, Consume);
    r := ConsumerStep(s);
  }

  /** What the look at the next flag decides. */
  lemma ScansAt<V>(s: State<V>, t: nat, max: nat, bulk: seq<V>, i: nat, more: bool) returns (r: State<V>)
    requires Inv(s) && s.consumer == BulkScan(t, max, bulk) && i == (t + |bulk|) % s.capacity
    requires more <==> |bulk| < max && s.slots[i].ready
    ensures r == s.(consumer := if more then BulkReady(t, max, bulk) else BulkEnd(t, bulk))
    ensures Inv(r) && Later(s, r)
    ensures more <==> |bulk| < max && !Unpublished(r, s.popped + |bulk|)
    ensures |bulk| < max ==> s.popped + |bulk| < |s.claims|
  {
    StepIsLater(s, Consume);
    r := ConsumerStep(s);
    if |bulk| < max {
      ScanSeesPublication(s);
    }
  }

  lemma ClearsAt<V>(s: State<V>, t: nat, max: nat, bulk: seq<V>, i: nat) returns (r: State<V>)
    requires Inv(s) && s.consumer == BulkTaken(t, max, bulk) && i == (t + |bulk| - 1) % s.capacity
    ensures r == s.(consumer := BulkScan(t, max, bulk), slots := s.slots[i := s.slots[i].(ready := false)])
    ensures Inv(r) && Later(s, r)
  {
    StepIsLater(s, Consume);
    r := ConsumerStep(s);
  }

  class MPSCQueue<V> {
    const capacity: nat
    const slots: array<Slot<V>>
    var head: nat
    var tail: nat
    // Where every thread stands, and the history of claims and deliveries.
    var producers: seq<Producer<V>>
    var consumer: ConsumerPc<V>
    var claims: seq<Claim<V>>
    var popped: nat
    var delivered: seq<V>

    ghost function View(): Memory<V>
      reads this, slots
    {
      Memory(capacity, head, tail, slots[..], producers, consumer, claims, popped, delivered)
    }

    ghost predicate Valid()
      reads this, slots
    {
      WellFormed(View()) && Inv(View())
    }

    /** The buffer is sized by the requested capacity but the ring by at least 256 slots, so callers
        must ask for 256 or more. */
    constructor (capacity: nat, threads: nat)
      requires capacity >= 256
      ensures Valid() && View() == Init<V>(capacity, threads)
      ensures fresh(slots)
    {
      this.capacity := capacity;
      slots := new Slot<V>[capacity](_ => Slot(Raw, false));
      head, tail := 0, 0;
      producers := seq(threads, _ => Producer(Idle, []));
      consumer, claims, popped, delivered := Resting, [], 0, [];
      new;
      assert slots[..] == Init<V>(capacity, threads).slots;
      InitInv<V>(capacity, threads);
    }

    method SetProducer(p: nat, pc: ProducerPc<V>)
      requires WellFormed(View()) && p < |producers| && PcInRing(pc, capacity)
      modifies this`producers
      ensures WellFormed(View()) && View() == SetPc(old(View()), p, pc)
    {
      producers := producers[p := producers[p].(pc := pc)];
    }

    /** One access of producer `p`, as lines 84-93 and 98-110 of src/queue.h make them. */
    method ProducerTurn(p: nat, spurious: bool)
      requires WellFormed(View()) && p < |producers|
      modifies this, slots
      ensures WellFormed(View()) && View() == ProducerStep(old(View()), p, spurious)
    {
      match producers[p].pc
      case Idle =>
      case Loading(v, b) =>
        SetProducer(p, Loaded(v, b, head, |claims|));
      case Loaded(v, b, h, seen) =>
        if (h + 1) % capacity == tail {
          SetProducer(p, if b then Loading(v, b) else Idle);
        } else {
          SetProducer(p, Checked(v, b, h, seen));
        }
      case Checked(v, b, h, seen) =>
        if head == h && !spurious {
          head := (h + 1) % capacity;
          producers := producers[p := producers[p].(pc := Claimed(v, h, |claims|))];
          claims := claims + [Claim(p, v)];
        } else {
          SetProducer(p, Loading(v, b));
        }
      case Claimed(v, h, k) =>
        assert PcInRing(producers[p].pc, capacity);
        slots[h] := slots[h].(cell := Live(v));
        producers := producers[p := producers[p].(pc := Built(v, h, k))];
        assert View() == ProducerStep(old(View()), p, spurious);
      case Built(v, h, k) =>
        assert PcInRing(producers[p].pc, capacity);
        slots[h] := slots[h].(ready := true);
        producers := producers[p := Producer(Idle, producers[p].sent + [v])];
        assert View() == ProducerStep(old(View()), p, spurious);
    }

    /** The producers take the given steps; consumer steps and steps that would break the lap
        hypothesis are skipped. */
    method Producers(acts: seq<Action<V>>)
      requires Valid()
      modifies this, slots
      ensures Valid() && Later(old(View()), View()) && ConsumerKept(old(View()), View())
    {
      for i := 0 to |acts|
        invariant Valid() && Later(old(View()), View()) && ConsumerKept(old(View()), View())
      {
        var a := acts[i];
        ghost var s := View();
        if a.Push? && a.p < |producers| && producers[a.p].pc.Idle? {
          StepIsLater(s, a);
          SetProducer(a.p, Loading(a.value, a.blocking));
        } else if a.Produce? && a.p < |producers| {
          if producers[a.p].pc.Checked? ==> |claims| - producers[a.p].pc.seen < capacity {
            StepIsLater(s, a);
            ProducerTurn(a.p, a.spurious);
          }
        }
      }
    }

    // ----- the consumer's accesses, one atomic operation each

    method LoadTail(bulk: bool) returns (t: nat)
      requires Valid() && consumer.Resting?
      modifies this`consumer
      ensures Valid() && Later(old(View()), View())
      ensures t == tail && consumer == if bulk then BulkTail(t) else PopTail(false, t)
    {
      StepIsLater(View(), if bulk then StartBulk else StartPop(false));
      t := tail;
      consumer := if bulk then BulkTail(t) else PopTail(false, t);
    }

    /** Line 127. */
    method HeadIsAt(t: nat) returns (empty: bool)
      requires Valid() && consumer == PopTail(false, t)
      modifies this`consumer
      ensures Valid() && Later(old(View()), View())
      ensures empty <==> popped == |claims|
      ensures consumer == if empty then Resting else PopNonEmpty(false, t)
    {
      StepIsLater(View(), Consume);
      HeadMeetsTail(View());
      empty := head == t;
      consumer := if empty then Resting else PopNonEmpty(false, t);
    }

    /** Line 130. */
    method IsReady(t: nat) returns (ready: bool)
      requires Valid() && consumer == PopNonEmpty(false, t)
      modifies this`consumer
      ensures Valid() && Later(old(View()), View())
      ensures popped < |claims| && (ready <==> !Unpublished(View(), popped))
      ensures consumer == if ready then PopReady(t) else Resting
    {
      StepIsLater(View(), Consume);
      assert SlotOk(View(), popped);
      ready := slots[t].ready;
      consumer := if ready then PopReady(t) else Resting;
    }

    /** The slot `offset` places behind the tail `t`. */
    method Index(t: nat, offset: nat) returns (i: nat)
      requires capacity > 0
      ensures i == (t + offset) % capacity && i < capacity
    {
      i := (t + offset) % capacity;
    }

    method SetConsumer(c: ConsumerPc<V>)
      requires WellFormed(View()) && ConsumerInRing(c, capacity)
      modifies this`consumer
      ensures WellFormed(View()) && View() == old(View()).(consumer := c)
    {
      consumer := c;
    }

    /** Line 133. */
    method MoveFront(t: nat) returns (v: V)
      requires Valid() && consumer == PopReady(t)
      modifies this`consumer, slots
      ensures Valid() && Later(old(View()), View())
      ensures popped < |claims| && v == claims[popped].value && consumer == PopTaken(t, v)
    {
      ghost var s := View();
      StepIsLater(s, Consume);
      ReadyMeansNext(s);
      v := slots[t].cell.value;
      SetSlot(t, slots[t].(cell := Moved), PopTaken(t, v));
      assert View() == ConsumerStep(s);
    }

    /** Line 176. */
    method MoveAt(t: nat, max: nat, bulk: seq<V>) returns (v: V)
      requires Valid() && consumer == BulkReady(t, max, bulk)
      modifies this`consumer, slots
      ensures Valid() && Later(old(View()), View())
      ensures consumer == BulkTaken(t, max, bulk + [v])
    {
      var i := Index(t, |bulk|);
      ghost var r := TakesAt(View(), t, max, bulk, i);
      v := slots[i].cell.value;
      SetSlot(i, slots[i].(cell := Moved), BulkTaken(t, max, bulk + [v]));
    }

    /** Line 134. */
    method ClearFront(t: nat, v: V)
      requires Valid() && consumer == PopTaken(t, v)
      modifies this`consumer, slots
      ensures Valid() && Later(old(View()), View()) && consumer == PopCleared(t, v)
    {
      ghost var s := View();
      StepIsLater(s, Consume);
      SetSlot(t, slots[t].(ready := false), PopCleared(t, v));
      assert View() == ConsumerStep(s);
    }

    /** Line 177. */
    method ClearAt(t: nat, max: nat, bulk: seq<V>)
      requires Valid() && consumer == BulkTaken(t, max, bulk)
      modifies this`consumer, slots
      ensures Valid() && Later(old(View()), View()) && consumer == BulkScan(t, max, bulk)
    {
      var i := Index(t, |bulk| - 1);
      ghost var r := ClearsAt(View(), t, max, bulk, i);
      SetSlot(i, slots[i].(ready := false), BulkScan(t, max, bulk));
    }

    /** Lines 135-136 and 182-183. */
    method StoreTail(next: nat)
      requires Valid() && (consumer.PopCleared? || consumer.BulkEnd?)
      requires next == (consumer.tail + |consumer.InHand()|) % capacity
      modifies this`consumer, this`tail, this`popped, this`delivered
      ensures Valid() && Later(old(View()), View()) && consumer.Resting?
      ensures popped == old(Consumed(View())) <= |claims|
      ensures old(consumer).InHand() == Values(claims[old(popped)..popped])
      ensures delivered == old(delivered) + Values(claims[old(popped)..popped])
    {
      var out := consumer.InHand();
      ghost var r := EndsWith(View(), next, out);
      tail, popped, delivered, consumer := next, popped + |out|, delivered + out, Resting;
    }

    /** Lines 126-132 with the producers in between: is there a published front? A front that was
        published before the call is always seen. */
    method Look(before: Gap<V>, between: Gap<V>) returns (t: nat, ready: bool)
      requires Valid() && consumer.Resting?
      modifies this, slots
      ensures Valid() && Later(old(View()), View())
      ensures popped == old(popped) && delivered == old(delivered) && t == tail
      ensures consumer == if ready then PopReady(t) else Resting
      ensures Drainable(old(View()), 1) ==> ready
    {
      t := LoadTail(false);
      Producers(before.acts);
      var empty := HeadIsAt(t);
      if empty {
        return t, false;
      }
      Producers(between.acts);
      ready := IsReady(t);
    }

    /** Lines 133-137: the front value leaves the ring. */
    method Take(t: nat, gaps: seq<Gap<V>>) returns (v: V)
      requires Valid() && consumer == PopReady(t)
      modifies this, slots
      ensures Valid() && consumer.Resting? && Later(old(View()), View())
      ensures popped == old(popped) + 1 <= |claims| && v == claims[old(popped)].value
      ensures delivered == old(delivered) + [v]
    {
      v := MoveFront(t);
      Producers(GapAt(gaps, 3).acts);
      ClearFront(t, v);
      Producers(GapAt(gaps, 4).acts);
      StoreTail((t + 1) % capacity);
    }

    /** Lines 124-138: true with the front value, or false and nothing changed. It cannot miss a front
        value that was published before the call. */
    method TryPop(gaps: seq<Gap<V>>) returns (ok: bool, out: Option<V>)
      requires Valid() && consumer.Resting?
      modifies this, slots
      ensures Valid() && consumer.Resting? && Later(old(View()), View())
      ensures ok ==> && old(popped) < |claims| && out == Some(claims[old(popped)].value)
                     && popped == old(popped) + 1 && delivered == old(delivered) + [claims[old(popped)].value]
      ensures !ok ==> out == None && popped == old(popped) && delivered == old(delivered)
      ensures Drainable(old(View()), 1) ==> ok
    {
      out := None;
      var t;
      t, ok := Look(GapAt(gaps, 0), GapAt(gaps, 1));
      if ok {
        Producers(GapAt(gaps, 2).acts);
        var v := Take(t, gaps);
        out := Some(v);
      }
    }

    // ----- TryPopBulk

    /** Lines 166-170: how many positions the snapshot of `head_` shows; none ends the call. */
    method Snapshot(t: nat) returns (max: nat)
      requires Valid() && consumer == BulkTail(t)
      modifies this`consumer
      ensures Valid() && Later(old(View()), View())
      ensures max == |claims| - popped
      ensures consumer == if max == 0 then Resting else BulkScan(t, max, [])
    {
      StepIsLater(View(), Consume);
      HeadMeetsTail(View());
      WrappedDistance(popped, |claims|, capacity);
      if head == t {
        consumer := Resting;
        return 0;
      }
      max := (head + capacity - t) % capacity;
      consumer := BulkScan(t, max, []);
    }

    /** Lines 173-175: go on to the next slot exactly if the snapshot covers it and it is published. */
    method Next(t: nat, max: nat, bulk: seq<V>) returns (more: bool)
      requires Valid() && consumer == BulkScan(t, max, bulk)
      modifies this`consumer
      ensures Valid() && Later(old(View()), View())
      ensures |bulk| < max ==> popped + |bulk| < |claims|
      ensures more <==> |bulk| < max && !Unpublished(View(), popped + |bulk|)
      ensures consumer == if more then BulkReady(t, max, bulk) else BulkEnd(t, bulk)
    {
      var i := Index(t, |bulk|);
      more := |bulk| < max && slots[i].ready;
      ghost var r := ScansAt(View(), t, max, bulk, i, more);
      SetConsumer(if more then BulkReady(t, max, bulk) else BulkEnd(t, bulk));
    }

    /** Lines 176-177. */
    method TakeNext(t: nat, max: nat, bulk: seq<V>, gaps: seq<Gap<V>>, g: nat) returns (v: V)
      requires Valid() && consumer == BulkReady(t, max, bulk)
      modifies this, slots
      ensures Valid() && Later(old(View()), View())
      ensures popped == old(popped) && delivered == old(delivered)
      ensures consumer == BulkScan(t, max, bulk + [v])
    {
      Producers(GapAt(gaps, g).acts);
      v := MoveAt(t, max, bulk);
      Producers(GapAt(gaps, g + 1).acts);
      ClearAt(t, max, bulk + [v]);
      Producers(GapAt(gaps, g + 2).acts);
    }

    /** The scan ended where it must: at the snapshot, or at a position found unpublished. */
    ghost predicate ScanOver(max: nat, bulk: seq<V>)
      reads this, slots
    {
      |bulk| == max || (popped + |bulk| < |claims| && Unpublished(View(), popped + |bulk|))
    }

    /** One turn of the loop in lines 173-181. */
    method Round(t: nat, max: nat, bulk: seq<V>, gaps: seq<Gap<V>>) returns (more: bool, longer: seq<V>)
      requires Valid() && consumer == BulkScan(t, max, bulk)
      modifies this, slots
      ensures Valid() && Later(old(View()), View())
      ensures popped == old(popped) && delivered == old(delivered)
      ensures more ==> consumer == BulkScan(t, max, longer) && |longer| == |bulk| + 1 <= max
      ensures !more ==> consumer == BulkEnd(t, longer) && longer == bulk && ScanOver(max, bulk)
    {
      longer := bulk;
      more := Next(t, max, bulk);
      if more {
        var v := TakeNext(t, max, bulk, gaps, 3 * |bulk| + 2);
        longer := bulk + [v];
      }
    }

    /** Lines 173-181: scan up to the snapshot or the first unpublished position. */
    method Drain(t: nat, max: nat, gaps: seq<Gap<V>>) returns (bulk: seq<V>)
      requires Valid() && consumer == BulkScan(t, max, [])
      modifies this, slots
      ensures Valid() && Later(old(View()), View())
      ensures popped == old(popped) && delivered == old(delivered)
      ensures consumer == BulkEnd(t, bulk) && |bulk| <= max && ScanOver(max, bulk)
    {
      bulk := [];
      Producers(GapAt(gaps, 1).acts);
      var more := true;
      while more
        invariant Valid() && Later(old(View()), View())
        invariant popped == old(popped) && delivered == old(delivered) && |bulk| <= max
        invariant consumer == if more then BulkScan(t, max, bulk) else BulkEnd(t, bulk)
        invariant more || ScanOver(max, bulk)
        decreases max - |bulk|, more
      {
        more, bulk := Round(t, max, bulk, gaps);
      }
    }

    /** Lines 165-170 with the producers in between. */
    method BeginBulk(gap: Gap<V>) returns (t: nat, max: nat)
      requires Valid() && consumer.Resting?
      modifies this, slots
      ensures Valid() && Later(old(View()), View())
      ensures popped == old(popped) && delivered == old(delivered) && t == tail
      ensures |old(claims)| <= popped + max <= |claims|
      ensures consumer == if max == 0 then Resting else BulkScan(t, max, [])
    {
      t := LoadTail(true);
      Producers(gap.acts);
      max := Snapshot(t);
    }

    /** Lines 173-183. */
    method FinishBulk(t: nat, max: nat, gaps: seq<Gap<V>>) returns (bulk: seq<V>)
      requires Valid() && consumer == BulkScan(t, max, [])
      modifies this, slots
      ensures Valid() && consumer.Resting? && Later(old(View()), View())
      ensures popped == old(popped) + |bulk| <= |claims|
      ensures bulk == Values(claims[old(popped)..popped])
      ensures delivered == old(delivered) + bulk
      ensures forall k: nat | k <= max && Drainable(old(View()), k) :: k <= |bulk|
    {
      bulk := Drain(t, max, gaps);
      forall k: nat | k <= max && Drainable(old(View()), k)
        ensures k <= |bulk|
      {
        DrainableStays(old(View()), View(), k);
      }
      StoreTail((t + |bulk|) % capacity);
    }

    /** Lines 163-185: returns exactly the next claims in order, although `tail_` moves only once and
        producers run in between; it takes at least every position published without a hole when the
        call began, and never one that was not published. */
    method TryPopBulk(gaps: seq<Gap<V>>) returns (bulk: seq<V>)
      requires Valid() && consumer.Resting?
      modifies this, slots
      ensures Valid() && consumer.Resting? && Later(old(View()), View())
      ensures popped == old(popped) + |bulk| <= |claims|
      ensures bulk == Values(claims[old(popped)..popped])
      ensures delivered == old(delivered) + bulk
      ensures forall k: nat | Drainable(old(View()), k) :: k <= |bulk|
    {
      bulk := [];
      var t, max := BeginBulk(GapAt(gaps, 0));
      ghost var s := View();
      if max > 0 {
        bulk := FinishBulk(t, max, gaps);
      }
      forall k: nat | Drainable(old(View()), k)
        ensures k <= |bulk|
      {
        DrainableStays(old(View()), s, k);
      }
    }

    // ----- TryEmplace, called by producer thread `p`

    method SetSlot(i: nat, slot: Slot<V>, c: ConsumerPc<V>)
      requires WellFormed(View()) && i < capacity && ConsumerInRing(c, capacity)
      modifies this`consumer, slots
      ensures WellFormed(View())
      ensures View() == old(View()).(consumer := c, slots := old(View()).slots[i := slot])
    {
      slots[i] := slot;
      consumer := c;
      assert slots[..] == old(slots[..])[i := slot];
    }

    /** One access of the consumer inside Pop or TryPop. */
    method PopTurn()
      requires WellFormed(View())
      requires consumer.PopTail? || consumer.PopNonEmpty? || consumer.PopReady? || consumer.PopTaken? || consumer.PopCleared?
      modifies this, slots
      ensures WellFormed(View()) && View() == ConsumerStep(old(View()))
    {
      match consumer
      case PopTail(b, t) =>
        consumer := if head != t then PopNonEmpty(b, t) else if b then consumer else Resting;
      case PopNonEmpty(b, t) =>
        consumer := if slots[t].ready then PopReady(t) else if b then PopTail(b, t) else Resting;
      case PopReady(t) =>
        if slots[t].cell.Live? {
          SetSlot(t, slots[t].(cell := Moved), PopTaken(t, slots[t].cell.value));
        } else {
          consumer := Faulted;
        }
      case PopTaken(t, v) =>
        SetSlot(t, slots[t].(ready := false), PopCleared(t, v));
      case PopCleared(t, v) =>
        tail, popped, delivered, consumer := (t + 1) % capacity, popped + 1, delivered + [v], Resting;
    }

    /** One access of the consumer inside TryPopBulk to an index or a flag. */
    method BulkLook()
      requires WellFormed(View())
      requires consumer.BulkTail? || consumer.BulkScan? || consumer.BulkEnd?
      modifies this
      ensures WellFormed(View()) && View() == ConsumerStep(old(View()))
    {
      match consumer
      case BulkTail(t) =>
        consumer := if head == t then Resting else BulkScan(t, (head + capacity - t) % capacity, []);
      case BulkScan(t, max, bulk) =>
        consumer := if |bulk| < max && slots[(t + |bulk|) % capacity].ready
                    then BulkReady(t, max, bulk) else BulkEnd(t, bulk);
      case BulkEnd(t, bulk) =>
        tail, popped, delivered, consumer :=
          (t + |bulk|) % capacity, popped + |bulk|, delivered + bulk, Resting;
    }

    /** One access of the consumer inside TryPopBulk that changes a slot. */
    method BulkSlot()
      requires WellFormed(View())
      requires consumer.BulkReady? || consumer.BulkTaken?
      modifies this, slots
      ensures WellFormed(View()) && View() == ConsumerStep(old(View()))
    {
      match consumer
      case BulkReady(t, max, bulk) =>
        var i := (t + |bulk|) % capacity;
        if slots[i].cell.Live? {
          SetSlot(i, slots[i].(cell := Moved), BulkTaken(t, max, bulk + [slots[i].cell.value]));
        } else {
          consumer := Faulted;
        }
      case BulkTaken(t, max, bulk) =>
        var i := (t + |bulk| - 1) % capacity;
        SetSlot(i, slots[i].(ready := false), BulkScan(t, max, bulk));
    }

    /** One step of any thread. */
    method Turn(a: Action<V>)
      requires WellFormed(View())
      modifies this, slots
      ensures WellFormed(View()) && View() == Step(old(View()), a)
    {
      match a
      case Push(q, v, b) =>
        if q < |producers| && producers[q].pc.Idle? {
          SetProducer(q, Loading(v, b));
        }
      case Produce(q, spurious) =>
        if q < |producers| {
          ProducerTurn(q, spurious);
        }
      case StartPop(b) =>
        if consumer.Resting? {
          consumer := PopTail(b, tail);
        }
      case StartBulk =>
        if consumer.Resting? {
          consumer := BulkTail(tail);
        }
      case Consume =>
        if !consumer.Resting? && !consumer.Faulted? {
          if consumer.PopTail? || consumer.PopNonEmpty? || consumer.PopReady? || consumer.PopTaken? || consumer.PopCleared? {
            PopTurn();
          } else if consumer.BulkReady? || consumer.BulkTaken? {
            BulkSlot();
          } else {
            BulkLook();
          }
        }
    }

    /** All threads but producer `p` take the given steps; steps that would break the lap hypothesis
        for their own thread or for `p` are skipped. */
    method Others(p: nat, acts: seq<Action<V>>)
      requires Valid() && p < |producers| && WithinLap(producers, |claims|, capacity, p)
      modifies this, slots
      ensures Valid() && Later(old(View()), View()) && ProducerKept(old(View()), View(), p)
      ensures WithinLap(producers, |claims|, capacity, p)
      ensures acts == [] ==> View() == old(View())
    {
      for i := 0 to |acts|
        invariant Valid() && Later(old(View()), View()) && ProducerKept(old(View()), View(), p)
        invariant WithinLap(producers, |claims|, capacity, p)
        invariant i == 0 ==> View() == old(View())
      {
        var a := acts[i];
        if NotBy(a, p)
           && (a.Produce? && a.p < |producers| ==>
                 && WithinLap(producers, |claims|, capacity, a.p)
                 && WithinLap(producers, |claims| + 1, capacity, p)) {
          StepIsLater(View(), a);
          OthersKeepProducer(View(), a, p);
          Turn(a);
        }
      }
    }

    /** Line 101. */
    method LoadHead(p: nat, v: V) returns (h: nat)
      requires Valid() && p < |producers| && producers[p].pc == Loading(v, false)
      modifies this`producers
      ensures Valid() && Later(old(View()), View()) && h == head
      ensures Stands(old(View()), View(), p, Loaded(v, false, h, |claims|))
    {
      StepIsLater(View(), Produce(p, false));
      h := head;
      SetProducer(p, Loaded(v, false, h, |claims|));
    }

    /** Lines 103-105. */
    method CheckFull(p: nat, v: V, h: nat, seen: nat) returns (full: bool)
      requires Valid() && p < |producers| && producers[p].pc == Loaded(v, false, h, seen)
      modifies this`producers
      ensures Valid() && Later(old(View()), View())
      ensures full <==> (h + 1) % capacity == tail
      ensures Stands(old(View()), View(), p, if full then Idle else Checked(v, false, h, seen))
    {
      var next := (h + 1) % capacity;
      full := next == tail;
      ghost var r := ChecksAt(View(), p, v, h, seen, full);
      SetProducer(p, if full then Idle else Checked(v, false, h, seen));
    }

    /** Line 106. */
    method CompareExchange(p: nat, v: V, h: nat, seen: nat, spurious: bool) returns (won: bool)
      requires Valid() && p < |producers| && producers[p].pc == Checked(v, false, h, seen)
      requires |claims| - seen < capacity
      modifies this`head, this`producers, this`claims
      ensures Valid() && Later(old(View()), View())
      ensures won <==> old(head) == h && !spurious
      ensures !won ==> Stands(old(View()), View(), p, Loading(v, false))
      ensures won ==> && |producers| == |old(producers)| && claims == old(claims) + [Claim(p, v)]
                      && producers[p] == old(producers[p]).(pc := Claimed(v, h, |old(claims)|))
    {
      ghost var s := View();
      StepIsLater(s, Produce(p, spurious));
      won := head == h && !spurious;
      if won {
        head := (h + 1) % capacity;
        producers := producers[p := producers[p].(pc := Claimed(v, h, |claims|))];
        claims := claims + [Claim(p, v)];
      } else {
        SetProducer(p, Loading(v, false));
      }
      assert View() == ProducerStep(s, p, spurious);
    }

    /** Lines 101-105 with the other threads in between. */
    method LoadAndCheck(p: nat, v: V, gap: Gap<V>)
      returns (full: bool, h: nat, seen: nat, ghost loaded: State<V>, ghost tested: State<V>)
      requires Valid() && p < |producers| && producers[p].pc == Loading(v, false)
      modifies this, slots
      ensures Valid() && Later(old(View()), View())
      ensures Stands(old(View()), View(), p, if full then Idle else Checked(v, false, h, seen))
      ensures |claims| - seen < capacity
      ensures full ==> SeenFull(old(View()), loaded, tested, View())
      ensures gap.acts == [] ==> && head == h && claims == old(claims) && popped == old(popped)
                                 && (full <==> IsFull(old(View())))
    {
      FullCheckIsExact(View());
      seen := |claims|;
      loaded := View();
      h := LoadHead(p, v);
      Others(p, gap.acts);
      tested := View();
      full := CheckFull(p, v, h, seen);
    }

    /** Lines 101-106 once. Without interference the compare-exchange cannot fail. */
    method Try(p: nat, v: V, first: Gap<V>, second: Gap<V>)
      returns (r: Attempt, ghost loaded: State<V>, ghost tested: State<V>)
      requires Valid() && p < |producers| && producers[p].pc == Loading(v, false)
      modifies this, slots
      ensures Valid() && Later(old(View()), View())
      ensures EndsAs(old(View()), View(), p, v, r, loaded, tested)
      ensures first.acts == [] && Undisturbed(second) ==> r == if IsFull(old(View())) then Refused else Won
    {
      var full, h, seen;
      full, h, seen, loaded, tested := LoadAndCheck(p, v, first);
      if full {
        r := Refused;
        return;
      }
      Others(p, second.acts);
      var won := CompareExchange(p, v, h, seen, second.spurious);
      r := if won then Won else Lost;
    }

    /** Lines 108-109 with the other threads in between: the claimed position gets its value. */
    method Fill(p: nat, v: V, h: nat, k: nat, gap: Gap<V>)
      requires Valid() && p < |producers| && producers[p].pc == Claimed(v, h, k)
      modifies this, slots
      ensures Valid() && Later(old(View()), View())
      ensures old(claims) <= claims
      ensures forall j | |old(claims)| <= j < |claims| :: claims[j].owner != p
      ensures |producers| == |old(producers)|
      ensures producers[p] == Producer(Idle, old(producers[p].sent) + [v])
      ensures k < |claims| && !Unpublished(View(), k)
    {
      Construct(p, v, h, k);
      Others(p, gap.acts);
      SetReady(p, v, h, k);
    }

    /** Line 108. */
    method Construct(p: nat, v: V, h: nat, k: nat)
      requires Valid() && p < |producers| && producers[p].pc == Claimed(v, h, k)
      modifies this, slots
      ensures Valid() && Later(old(View()), View()) && claims == old(claims)
      ensures Stands(old(View()), View(), p, Built(v, h, k))
    {
      StepIsLater(View(), Produce(p, false));
      ProducerTurn(p, false);
    }

    /** Line 109. */
    method SetReady(p: nat, v: V, h: nat, k: nat)
      requires Valid() && p < |producers| && producers[p].pc == Built(v, h, k)
      modifies this, slots
      ensures Valid() && Later(old(View()), View()) && claims == old(claims)
      ensures |producers| == |old(producers)|
      ensures producers[p] == Producer(Idle, old(producers[p].sent) + [v])
      ensures k < |claims| && !Unpublished(View(), k)
    {
      assert ProducerOk(View(), p);
      StepIsLater(View(), Produce(p, false));
      ProducerTurn(p, false);
    }

    /** Lines 95-111 for thread `p`: either exactly one claim of the value is added, it is published,
        and the call is logged as accepted; or the call leaves no trace, and it has seen the full test
        true. A call that nobody disturbs succeeds exactly when there is room. Every schedule lets it
        end. */
    method TryEmplace(p: nat, v: V, gaps: seq<Gap<V>>)
      returns (ok: bool, at: nat, ghost loaded: State<V>, ghost tested: State<V>)
      requires Valid() && p < |producers| && producers[p].pc.Idle?
      modifies this, slots
      ensures Valid() && Later(old(View()), View())
      ensures |producers| == |old(producers)| && producers[p].pc.Idle?
      ensures ok ==> && |old(claims)| <= at < |claims| && claims[at] == Claim(p, v)
                     && !Unpublished(View(), at)
                     && (forall j | |old(claims)| <= j < |claims| && j != at :: claims[j].owner != p)
                     && producers[p].sent == old(producers[p].sent) + [v]
      ensures !ok ==> && producers[p].sent == old(producers[p].sent)
                      && (forall j | |old(claims)| <= j < |claims| :: claims[j].owner != p)
                      && SeenFull(old(View()), loaded, tested, View())
      ensures NoneDisturbs(gaps) ==> (ok <==> !IsFull(old(View())))
    {
      var r, i;
      r, i, loaded, tested := Reserve(p, v, gaps);
      ok, at := r.Won?, 0;
      if ok {
        at := |claims| - 1;
        Fill(p, v, producers[p].pc.head, at, GapAt(gaps, i));
      }
    }

    /** Lines 98-106: the loop up to a claim or a refusal. */
    method Reserve(p: nat, v: V, gaps: seq<Gap<V>>)
      returns (r: Attempt, i: nat, ghost loaded: State<V>, ghost tested: State<V>)
      requires Valid() && p < |producers| && producers[p].pc.Idle?
      modifies this, slots
      ensures Valid() && Later(old(View()), View())
      ensures !r.Lost? && EndsAs(old(View()), View(), p, v, r, loaded, tested)
      ensures NoneDisturbs(gaps) ==> (r.Won? <==> !IsFull(old(View())))
    {
      StepIsLater(View(), Push(p, v, false));
      SetProducer(p, Loading(v, false));
      i, r, loaded, tested := 0, Lost, View(), View();
      while r.Lost?
        invariant Valid() && Later(old(View()), View())
        invariant EndsAs(old(View()), View(), p, v, r, loaded, tested)
        invariant NoneDisturbs(gaps) ==> if r.Lost? then IsFull(View()) == IsFull(old(View()))
                                     else r.Won? == !IsFull(old(View()))
        decreases if i < |gaps| then |gaps| - i else 0, r.Lost?
      {
        ghost var m := View();
        r, loaded, tested := Try(p, v, GapAt(gaps, i), GapAt(gaps, i + 1));
        AttemptsChain(old(View()), m, View(), p, v, r, loaded, tested);
        i := i + 2;
      }
    }
  }
}
