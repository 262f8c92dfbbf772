/**
 What the ring does for its callers: it refines an unbounded FIFO queue that grows at the successful
 compare-exchange and shrinks when a value is moved out, and it keeps each producer's order.
 */
module RingFifo {
  import opened Basics
  import opened ModularIndex
  import opened RingProtocol
  import opened RingSafety

  /** A queued position is unpublished with exactly one owner, or its slot is ready with its own value. */
  ghost predicate QueuedSlotsHold<V>(s: State<V>)
  {
    forall j | Consumed(s) <= j < |s.claims| ::
      if Unpublished(s, j) then
        && !s.slots[j % s.capacity].ready
        && (forall p | 0 <= p < |s.producers| && s.producers[p].pc.Owns() ::
              s.producers[p].pc.ticket == j <==> p == s.claims[j].owner)
      else
        s.slots[j % s.capacity] == Slot(Live(s.claims[j].value), true)
  }

  /** Slots outside the claimed positions hold nothing, and a construction only hits such a slot. */
  ghost predicate SpareSlotsEmpty<V>(s: State<V>)
  {
    && (forall j | |s.claims| <= j < s.popped + s.capacity :: EmptySlot(s.slots[j % s.capacity]))
    && (forall p | 0 <= p < |s.producers| && s.producers[p].pc.Claimed? ::
          EmptySlot(s.slots[s.producers[p].pc.head]))
  }

  lemma InvQueuedSlots<V>(s: State<V>)
    requires Inv(s)
    ensures QueuedSlotsHold(s)
  {
    forall j | Consumed(s) <= j < |s.claims|
      ensures if Unpublished(s, j) then
                && !s.slots[j % s.capacity].ready
                && (forall p | 0 <= p < |s.producers| && s.producers[p].pc.Owns() ::
                      s.producers[p].pc.ticket == j <==> p == s.claims[j].owner)
              else
                s.slots[j % s.capacity] == Slot(Live(s.claims[j].value), true)
    {
      assert SlotOk(s, j);
      forall p | 0 <= p < |s.producers| && s.producers[p].pc.Owns()
        ensures s.producers[p].pc.ticket < |s.claims| && s.claims[s.producers[p].pc.ticket].owner == p
      {
        assert ProducerOk(s, p);
      }
    }
  }

  lemma InvSpareSlots<V>(s: State<V>)
    requires Inv(s)
    ensures SpareSlotsEmpty(s)
  {
    forall j | |s.claims| <= j < s.popped + s.capacity
      ensures EmptySlot(s.slots[j % s.capacity])
    {
      assert SlotOk(s, j);
    }
    forall p | 0 <= p < |s.producers| && s.producers[p].pc.Claimed?
      ensures EmptySlot(s.slots[s.producers[p].pc.head])
    {
      assert ProducerOk(s, p);
      assert SlotOk(s, s.producers[p].pc.ticket);
    }
  }

  /** Safety of every lap-free run, for any number of producers: the ring is never full to the brim,
      its indices tell empty and full apart, the consumer never moves out of a slot that holds
      nothing, and slots, owners and constructions are as the two predicates say. */
  lemma RingIsSafe<V>(capacity: nat, producers: nat, acts: seq<Action<V>>)
    requires capacity >= 2
    requires LapFree(Init<V>(capacity, producers), acts)
    ensures var s := Run(Init<V>(capacity, producers), acts);
            && s.capacity == capacity == |s.slots|
            && s.popped <= |s.claims| <= s.popped + capacity - 1
            && (s.head == s.tail <==> |s.claims| == s.popped)
            && ((s.head + 1) % capacity == s.tail <==> |s.claims| == s.popped + capacity - 1)
            && !s.consumer.Faulted?
            && QueuedSlotsHold(s)
            && SpareSlotsEmpty(s)
  {
    var s0 := Init<V>(capacity, producers);
    InitInv<V>(capacity, producers);
    RunInv(s0, acts);
    RunKeepsCapacity(s0, acts);
    var s := Run(s0, acts);
    HeadMeetsTail(s);
    FullCheckIsExact(s);
    InvQueuedSlots(s);
    InvSpareSlots(s);
  }

  lemma {:induction false} RunKeepsCapacity<V>(s: State<V>, acts: seq<Action<V>>)
    ensures Run(s, acts).capacity == s.capacity
    decreases |acts|
  {
    if acts != [] {
      RunKeepsCapacity(Step(s, acts[0]), acts[1..]);
    }
  }

  /** One slot always stays unused. */
  predicate IsFull<V>(s: State<V>) {
    |s.claims| == s.popped + s.capacity - 1
  }

  /** The full check on fresh indices is exact: one slot always stays free. */
  lemma FullCheckIsExact<V>(s: State<V>)
    requires Inv(s)
    ensures (s.head + 1) % s.capacity == s.tail <==> IsFull(s)
  {
    AddWraps(|s.claims|, 1, s.capacity);
    LapSameSlot(s.popped, s.capacity);
    SameSlotSamePosition(|s.claims| + 1, s.popped + s.capacity, s.capacity);
  }

  /** The snapshot TryPopBulk takes counts the undelivered claims, although it only sees wrapped indices. */
  lemma SnapshotIsExact<V>(s: State<V>)
    requires Inv(s) && s.consumer.BulkTail?
    ensures s.head == s.consumer.tail <==> |s.claims| == s.popped
    ensures (s.head + s.capacity - s.consumer.tail) % s.capacity == |s.claims| - s.popped
  {
    HeadMeetsTail(s);
    WrappedDistance(s.popped, |s.claims|, s.capacity);
  }

  /** While TryPopBulk scans, a slot reads ready exactly if the next claim is published, although
      `tail_` still lies before slots that were emptied already. */
  lemma ScanSeesPublication<V>(s: State<V>)
    requires Inv(s) && s.consumer.BulkScan? && |s.consumer.bulk| < s.consumer.max
    ensures Consumed(s) < |s.claims|
    ensures s.slots[(s.consumer.tail + |s.consumer.bulk|) % s.capacity].ready <==> !Unpublished(s, Consumed(s))
  {
    AddWraps(s.popped, |s.consumer.bulk|, s.capacity);
    assert SlotOk(s, Consumed(s));
  }

  // ----- refinement of an unbounded FIFO

  datatype FifoOp<V> = Quiet | Enqueue(value: V) | Dequeue(value: V)

  /** The unbounded queue: a dequeue must name the front value. */
  ghost function Apply<V>(q: seq<V>, op: FifoOp<V>): Option<seq<V>> {
    match op
    case Quiet => Some(q)
    case Enqueue(v) => Some(q + [v])
    case Dequeue(v) => if q != [] && q[0] == v then Some(q[1..]) else None
  }

  ghost function Replay<V>(q: seq<V>, ops: seq<FifoOp<V>>): Option<seq<V>>
    decreases |ops|
  {
    if ops == [] then Some(q)
    else match Apply(q, ops[0])
      case None => None
      case Some(r) => Replay(r, ops[1..])
  }

  /** What one ring step does, read off the ring's memory: a winning compare-exchange enqueues the
      caller's value, a move dequeues whatever object lies in the slot. */
  function Effect<V>(s: State<V>, a: Action<V>): FifoOp<V>
  {
    if Claims(s, a) then
      Enqueue(s.producers[a.p].pc.value)
    else if a.Consume? then
      match s.consumer
      case PopReady(t) =>
        if s.slots[t].cell.Live? then Dequeue(s.slots[t].cell.value) else Quiet
      case BulkReady(t, _, bulk) =>
        var i := (t + |bulk|) % s.capacity;
        if s.slots[i].cell.Live? then Dequeue(s.slots[i].cell.value) else Quiet
      case _ => Quiet
    else
      Quiet
  }

  function Effects<V>(s: State<V>, acts: seq<Action<V>>): seq<FifoOp<V>>
    decreases |acts|
  {
    if acts == [] then [] else [Effect(s, acts[0])] + Effects(Step(s, acts[0]), acts[1..])
  }

  /** The abstract queue: claimed and not yet moved out. */
  function Queue<V>(s: State<V>): seq<V>
    requires Consumed(s) <= |s.claims|
  {
    Values(s.claims[Consumed(s)..])
  }

  /** Action `a` moves a value out of the ring. */
  predicate Takes<V>(s: State<V>, a: Action<V>) {
    a.Consume? && (s.consumer.PopReady? || s.consumer.BulkReady?)
  }

  /** Any other step leaves the claims and the moved-out values alone. */
  lemma QuietEffect<V>(s: State<V>, a: Action<V>)
    requires !Claims(s, a) && !Takes(s, a)
    ensures Effect(s, a).Quiet?
    ensures Step(s, a).claims == s.claims && Consumed(Step(s, a)) == Consumed(s)
    ensures Step(s, a).delivered + Step(s, a).consumer.InHand() == s.delivered + s.consumer.InHand()
  {
    assert s.delivered + [] == s.delivered;
  }

  lemma ClaimEffect<V>(s: State<V>, a: Action<V>)
    requires Claims(s, a)
    ensures Effect(s, a) == Enqueue(s.producers[a.p].pc.value)
    ensures Step(s, a).claims == s.claims + [Claim(a.p, s.producers[a.p].pc.value)]
    ensures Step(s, a).popped == s.popped && Step(s, a).consumer == s.consumer
    ensures Step(s, a).delivered == s.delivered
  {
  }

  lemma TakeEffect<V>(s: State<V>, a: Action<V>)
    requires Inv(s) && Takes(s, a)
    ensures Consumed(s) < |s.claims|
    ensures Effect(s, a) == Dequeue(s.claims[Consumed(s)].value)
    ensures Step(s, a).claims == s.claims && Consumed(Step(s, a)) == Consumed(s) + 1
    ensures Step(s, a).delivered == s.delivered
    ensures Step(s, a).consumer.InHand() == s.consumer.InHand() + [s.claims[Consumed(s)].value]
  {
    if s.consumer.BulkReady? {
      AddWraps(s.popped, |s.consumer.bulk|, s.capacity);
    }
    ReadyMeansNext(s);
  }

  lemma StepRefines<V>(s: State<V>, a: Action<V>)
    requires Inv(s) && LapFreeStep(s, a)
    ensures Inv(Step(s, a))
    ensures Apply(Queue(s), Effect(s, a)) == Some(Queue(Step(s, a)))
  {
    StepInv(s, a);
    if Claims(s, a) {
      ClaimEffect(s, a);
      assert Step(s, a).claims[Consumed(s)..]
          == s.claims[Consumed(s)..] + [Claim(a.p, s.producers[a.p].pc.value)];
      assert Queue(Step(s, a)) == Queue(s) + [s.producers[a.p].pc.value];
    } else if Takes(s, a) {
      TakeEffect(s, a);
      assert Queue(s)[0] == s.claims[Consumed(s)].value;
      assert Queue(Step(s, a)) == Queue(s)[1..];
    } else {
      QuietEffect(s, a);
    }
  }

  /** Linearizability of whole runs: the ring's effects, in the order they happen, are a legal
      history of one unbounded FIFO queue, and that queue is what the ring holds at the end. */
  lemma {:induction false} RunRefinesFifo<V>(s: State<V>, acts: seq<Action<V>>)
    requires Inv(s) && LapFree(s, acts)
    ensures Inv(Run(s, acts))
    ensures Replay(Queue(s), Effects(s, acts)) == Some(Queue(Run(s, acts)))
    decreases |acts|
  {
    if acts != [] {
      StepRefines(s, acts[0]);
      RunRefinesFifo(Step(s, acts[0]), acts[1..]);
      assert Effects(s, acts)[1..] == Effects(Step(s, acts[0]), acts[1..]);
    }
  }

  function EnqueuedBy<V>(op: FifoOp<V>): seq<V> {
    if op.Enqueue? then [op.value] else []
  }

  function DequeuedBy<V>(op: FifoOp<V>): seq<V> {
    if op.Dequeue? then [op.value] else []
  }

  function Enqueued<V>(ops: seq<FifoOp<V>>): seq<V> {
    if ops == [] then [] else EnqueuedBy(ops[0]) + Enqueued(ops[1..])
  }

  function Dequeued<V>(ops: seq<FifoOp<V>>): seq<V> {
    if ops == [] then [] else DequeuedBy(ops[0]) + Dequeued(ops[1..])
  }

  /** Everything moved out so far: what completed pops returned, then what the consumer holds. */
  function MovedOut<V>(s: State<V>): seq<V> {
    s.delivered + s.consumer.InHand()
  }

  lemma StepLogs<V>(s: State<V>, a: Action<V>)
    requires Inv(s) && LapFreeStep(s, a)
    ensures Values(Step(s, a).claims) == Values(s.claims) + EnqueuedBy(Effect(s, a))
    ensures MovedOut(Step(s, a)) == MovedOut(s) + DequeuedBy(Effect(s, a))
  {
    if Claims(s, a) {
      ClaimEffect(s, a);
      assert MovedOut(Step(s, a)) == MovedOut(s);
    } else if Takes(s, a) {
      TakeEffect(s, a);
    } else {
      QuietEffect(s, a);
    }
  }

  /** The log of claims is the history of winning compare-exchanges, and what was moved out is the
      history of moves. */
  lemma {:induction false} LogsAreHistories<V>(s: State<V>, acts: seq<Action<V>>)
    requires Inv(s) && LapFree(s, acts)
    ensures Values(Run(s, acts).claims) == Values(s.claims) + Enqueued(Effects(s, acts))
    ensures MovedOut(Run(s, acts)) == MovedOut(s) + Dequeued(Effects(s, acts))
    decreases |acts|
  {
    if acts != [] {
      var t, op := Step(s, acts[0]), Effect(s, acts[0]);
      StepInv(s, acts[0]);
      StepLogs(s, acts[0]);
      LogsAreHistories(t, acts[1..]);
      var ops := Effects(t, acts[1..]);
      assert Effects(s, acts) == [op] + ops;
      assert ([op] + ops)[1..] == ops;
      Associate(Values(s.claims), EnqueuedBy(op), Enqueued(ops));
      Associate(MovedOut(s), DequeuedBy(op), Dequeued(ops));
    }
  }

  /** From the empty ring: what completed pops returned is exactly the first claims, in claim order,
      each once; the rest of the claims are in the consumer's hands or still queued. */
  lemma DeliveredInClaimOrder<V>(capacity: nat, producers: nat, acts: seq<Action<V>>)
    requires capacity >= 2
    requires LapFree(Init<V>(capacity, producers), acts)
    ensures var s0 := Init<V>(capacity, producers);
            var s := Run(s0, acts);
            && Consumed(s) <= |s.claims|
            && MovedOut(s) + Queue(s) == Enqueued(Effects(s0, acts))
            && MovedOut(s) == Dequeued(Effects(s0, acts))
  {
    var s0 := Init<V>(capacity, producers);
    InitInv<V>(capacity, producers);
    RunInv(s0, acts);
    LogsAreHistories(s0, acts);
    AllClaims(Run(s0, acts));
    assert Values(s0.claims) == [] && MovedOut(s0) == [];
  }

  lemma AllClaims<V>(s: State<V>)
    requires Inv(s)
    ensures MovedOut(s) + Queue(s) == Values(s.claims)
  {
    ValuesConcat(s.claims[..s.popped], s.claims[s.popped..Consumed(s)]);
    assert s.claims[..Consumed(s)] == s.claims[..s.popped] + s.claims[s.popped..Consumed(s)];
    ValuesConcat(s.claims[..Consumed(s)], s.claims[Consumed(s)..]);
    assert s.claims == s.claims[..Consumed(s)] + s.claims[Consumed(s)..];
  }

  lemma ValuesConcat<V>(a: seq<Claim<V>>, b: seq<Claim<V>>)
    ensures Values(a + b) == Values(a) + Values(b)
  {
  }

  // ----- each producer's own order

  /** The values of the claims producer `p` won, in claim order. */
  function ByOwner<V>(claims: seq<Claim<V>>, p: nat): seq<V> {
    if claims == [] then []
    else
      var last := claims[|claims| - 1];
      ByOwner(claims[..|claims| - 1], p) + if last.owner == p then [last.value] else []
  }

  /** The values this producer's finished calls reported as accepted, in program order, and then the
      one it is still publishing. */
  function Accepted<V>(pr: Producer<V>): seq<V> {
    pr.sent + if pr.pc.Owns() then [pr.pc.value] else []
  }

  /** A producer's claims are exactly what it got accepted, in its program order. */
  ghost predicate SentOk<V>(s: State<V>) {
    forall p | 0 <= p < |s.producers| :: ByOwner(s.claims, p) == Accepted(s.producers[p])
  }

  lemma StepKeepsSent<V>(s: State<V>, a: Action<V>)
    requires SentOk(s)
    ensures SentOk(Step(s, a))
  {
    var t := Step(s, a);
    if Claims(s, a) {
      ClaimEffect(s, a);
      ClaimSent(s, t, a.p);
    } else {
      StepKeepsAccepted(s, a);
    }
  }

  /** Only a claim changes what a producer has had accepted. */
  lemma StepKeepsAccepted<V>(s: State<V>, a: Action<V>)
    requires !Claims(s, a)
    ensures Step(s, a).claims == s.claims && |Step(s, a).producers| == |s.producers|
    ensures forall p | 0 <= p < |s.producers| :: Accepted(Step(s, a).producers[p]) == Accepted(s.producers[p])
  {
    if a.Produce? && a.p < |s.producers| {
      ProducerKeepsAccepted(s, a.p, a.spurious);
    } else if a.Consume? {
      ConsumerKeepsProducers(s);
    }
  }

  lemma ProducerKeepsAccepted<V>(s: State<V>, p: nat, spurious: bool)
    requires p < |s.producers| && !Claims(s, Produce(p, spurious))
    ensures ProducerStep(s, p, spurious).claims == s.claims
    ensures |ProducerStep(s, p, spurious).producers| == |s.producers|
    ensures forall q | 0 <= q < |s.producers| ::
              Accepted(ProducerStep(s, p, spurious).producers[q]) == Accepted(s.producers[q])
  {
  }

  lemma ConsumerKeepsProducers<V>(s: State<V>)
    ensures ConsumerStep(s).claims == s.claims && ConsumerStep(s).producers == s.producers
  {
  }

  lemma ClaimSent<V>(s: State<V>, t: State<V>, p: nat)
    requires SentOk(s) && p < |s.producers| == |t.producers|
    requires s.producers[p].pc.Checked? && t.claims == s.claims + [Claim(p, s.producers[p].pc.value)]
    requires forall q | 0 <= q < |s.producers| && q != p :: t.producers[q] == s.producers[q]
    requires t.producers[p].sent == s.producers[p].sent
    requires t.producers[p].pc.Claimed? && t.producers[p].pc.value == s.producers[p].pc.value
    ensures SentOk(t)
  {
    assert t.claims[..|t.claims| - 1] == s.claims;
    assert ByOwner(s.claims, p) == s.producers[p].sent;
  }

  lemma {:induction false} RunKeepsSent<V>(s: State<V>, acts: seq<Action<V>>)
    requires Inv(s) && SentOk(s) && LapFree(s, acts)
    ensures SentOk(Run(s, acts)) && Inv(Run(s, acts))
    decreases |acts|
  {
    if acts != [] {
      StepInv(s, acts[0]);
      StepKeepsSent(s, acts[0]);
      RunKeepsSent(Step(s, acts[0]), acts[1..]);
    }
  }

  lemma {:induction false} ByOwnerConcat<V>(a: seq<Claim<V>>, b: seq<Claim<V>>, p: nat)
    ensures ByOwner(a + b, p) == ByOwner(a, p) + ByOwner(b, p)
    decreases |b|
  {
    if b == [] {
      assert a + b == a;
    } else {
      ByOwnerConcat(a, b[..|b| - 1], p);
      assert (a + b)[..|a + b| - 1] == a + b[..|b| - 1];
    }
  }

  lemma {:induction false} ByOwnerHas<V>(claims: seq<Claim<V>>, k: nat)
    requires k < |claims|
    ensures ByOwner(claims, claims[k].owner) != []
    decreases |claims|
  {
    if k < |claims| - 1 {
      ByOwnerHas(claims[..|claims| - 1], k);
    }
  }

  lemma PoppedInOrder<V>(s: State<V>, p: nat)
    requires Inv(s) && SentOk(s) && p < |s.producers|
    ensures ByOwner(s.claims[..s.popped], p) <= s.producers[p].sent
  {
    var front, back := s.claims[..s.popped], s.claims[s.popped..];
    assert s.claims == front + back;
    ByOwnerConcat(front, back, p);
    var pc := s.producers[p].pc;
    assert ProducerOk(s, p);
    if pc.Owns() {
      assert back[pc.ticket - s.popped] == s.claims[pc.ticket];
      ByOwnerHas(back, pc.ticket - s.popped);
      PrefixOfAll(ByOwner(front, p), ByOwner(back, p), s.producers[p].sent, pc.value);
    } else {
      assert Accepted(s.producers[p]) == s.producers[p].sent;
    }
  }

  lemma PrefixOfAll<V>(front: seq<V>, back: seq<V>, sent: seq<V>, last: V)
    requires front + back == sent + [last] && back != []
    ensures front <= sent
  {
    assert |front| <= |sent|;
    assert forall i | 0 <= i < |front| :: front[i] == (front + back)[i] == (sent + [last])[i] == sent[i];
  }

  /** What was popped from one producer is a prefix of what that producer sent, in its program order. */
  lemma ProducerOrder<V>(capacity: nat, producers: nat, acts: seq<Action<V>>, p: nat)
    requires capacity >= 2 && p < producers
    requires LapFree(Init<V>(capacity, producers), acts)
    ensures var s := Run(Init<V>(capacity, producers), acts);
            && p < |s.producers|
            && s.popped <= |s.claims| && s.delivered == Values(s.claims[..s.popped])
            && ByOwner(s.claims[..s.popped], p) <= s.producers[p].sent
  {
    var s0 := Init<V>(capacity, producers);
    InitInv<V>(capacity, producers);
    RunKeepsSent(s0, acts);
    RunKeepsProducers(s0, acts);
    PoppedInOrder(Run(s0, acts), p);
  }

  lemma StepKeepsProducers<V>(s: State<V>, a: Action<V>)
    ensures |Step(s, a).producers| == |s.producers|
  {
  }

  lemma {:induction false} RunKeepsProducers<V>(s: State<V>, acts: seq<Action<V>>)
    ensures |Run(s, acts).producers| == |s.producers|
    decreases |acts|
  {
    if acts != [] {
      StepKeepsProducers(s, acts[0]);
      RunKeepsProducers(Step(s, acts[0]), acts[1..]);
    }
  }

  // ----- destruction

  /** What the destructor destroys: the objects in slots whose ready flag is set, in slot order. */
  function ReadyValues<V>(slots: seq<Slot<V>>): seq<V> {
    if slots == [] then []
    else
      var last := slots[|slots| - 1];
      ReadyValues(slots[..|slots| - 1]) + if last.ready && last.cell.Live? then [last.cell.value] else []
  }

  lemma {:induction false} ReadyValuesConcat<V>(a: seq<Slot<V>>, b: seq<Slot<V>>)
    ensures ReadyValues(a + b) == ReadyValues(a) + ReadyValues(b)
    decreases |b|
  {
    if b == [] {
      assert a + b == a;
    } else {
      ReadyValuesConcat(a, b[..|b| - 1]);
      assert (a + b)[..|a + b| - 1] == a + b[..|b| - 1];
    }
  }

  /** The first `k` slots counted from `tail_`, around the end of the array. */
  function FromTail<V>(s: State<V>, k: nat): seq<Slot<V>> {
    seq(k, i requires 0 <= i => s.slots[(s.popped + i) % s.capacity])
  }

  lemma {:induction false} FromTailReady<V>(s: State<V>, k: nat)
    requires Inv(s) && s.consumer.Resting? && k <= s.capacity
    requires forall j | 0 <= j < |s.claims| :: !Unpublished(s, j)
    ensures var m := if s.popped + k <= |s.claims| then s.popped + k else |s.claims|;
            ReadyValues(FromTail(s, k)) == Values(s.claims[s.popped..m])
    decreases k
  {
    if k > 0 {
      FromTailReady(s, k - 1);
      assert FromTail(s, k)[..k - 1] == FromTail(s, k - 1);
      LastFromTail(s, k);
      var m := if s.popped + k <= |s.claims| then s.popped + k else |s.claims|;
      if m == s.popped + k {
        assert s.claims[s.popped..m] == s.claims[s.popped..m - 1] + [s.claims[m - 1]];
      }
    }
  }

  lemma LastFromTail<V>(s: State<V>, k: nat)
    requires Inv(s) && s.consumer.Resting? && 0 < k <= s.capacity
    requires forall j | 0 <= j < |s.claims| :: !Unpublished(s, j)
    ensures var i, slot := s.popped + k - 1, FromTail(s, k)[k - 1];
            if i < |s.claims| then slot == Slot(Live(s.claims[i].value), true) else !slot.ready
  {
    assert SlotOk(s, s.popped + k - 1);
  }

  lemma FromTailIsRotation<V>(s: State<V>)
    requires Inv(s)
    ensures FromTail(s, s.capacity) == s.slots[s.tail..] + s.slots[..s.tail]
  {
    var n, t := s.capacity, s.tail;
    forall i | 0 <= i < n
      ensures FromTail(s, n)[i] == (s.slots[t..] + s.slots[..t])[i]
    {
      AddWraps(s.popped, i, n);
      if t + i < n {
        QuotientRemainderUnique(t + i, n, 0, t + i);
      } else {
        QuotientRemainderUnique(t + i, n, 1, t + i - n);
      }
    }
  }

  /** When no thread is inside a call, the destructor destroys exactly the queued values. */
  lemma DestroysTheQueue<V>(s: State<V>)
    requires Inv(s) && s.consumer.Resting?
    requires forall p | 0 <= p < |s.producers| :: s.producers[p].pc.Idle?
    ensures multiset(ReadyValues(s.slots)) == multiset(Queue(s))
  {
    ReadyFromTail(s);
    FromTailIsRotation(s);
    RotatedReadyValues(s.slots, s.tail);
  }

  /** From the tail on, the ready slots hold the queue. */
  lemma ReadyFromTail<V>(s: State<V>)
    requires Inv(s) && s.consumer.Resting?
    requires forall p | 0 <= p < |s.producers| :: s.producers[p].pc.Idle?
    ensures ReadyValues(FromTail(s, s.capacity)) == Queue(s)
  {
    FromTailReady(s, s.capacity);
    assert s.claims[s.popped..|s.claims|] == s.claims[s.popped..];
  }

  /** The order in which slots are visited does not change what is destroyed. */
  lemma ReadyValuesSwap<V>(a: seq<Slot<V>>, b: seq<Slot<V>>)
    ensures multiset(ReadyValues(a + b)) == multiset(ReadyValues(b + a))
  {
    var x, y := ReadyValues(a), ReadyValues(b);
    ReadyValuesConcat(a, b);
    ReadyValuesConcat(b, a);
    assert multiset(x + y) == multiset(x) + multiset(y) == multiset(y + x);
  }

  lemma RotatedReadyValues<V>(slots: seq<Slot<V>>, t: nat)
    requires t <= |slots|
    ensures multiset(ReadyValues(slots)) == multiset(ReadyValues(slots[t..] + slots[..t]))
  {
    ReadyValuesSwap(slots[..t], slots[t..]);
    assert slots == slots[..t] + slots[t..];
  }
}
