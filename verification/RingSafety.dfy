/**
 Safety of the ring under the lap hypothesis: positions, slots, owners and the consumer's view are
 consistent in every reachable state of any number of producers and one consumer.
 Position j is the j-th successful claim; it lives in slot j % capacity.
 */
module RingSafety {
  import opened ModularIndex
  import opened RingProtocol

  /** Positions already moved out of the ring. */
  function Consumed<V>(s: Memory<V>): nat {
    s.popped + |s.consumer.InHand()|
  }

  /** The position has been claimed and its producer has not stored the ready flag yet. */
  ghost predicate Unpublished<V>(s: Memory<V>, j: nat)
    requires j < |s.claims|
  {
    var p := s.claims[j].owner;
    p < |s.producers| && s.producers[p].pc.Owns() && s.producers[p].pc.ticket == j
  }

  ghost predicate EmptySlot<V>(slot: Slot<V>) {
    !slot.ready && !slot.cell.Live?
  }

  /** What slot j % capacity holds, for the positions of one lap starting at `tail_`. */
  ghost predicate SlotOk<V>(s: State<V>, j: nat)
  {
    var slot := s.slots[j % s.capacity];
    if j < Consumed(s) then
      && slot.cell.Moved?
      && (slot.ready <==> s.consumer.FlagPending() && j + 1 == Consumed(s))
    else if j >= |s.claims| then
      EmptySlot(slot)
    else if !Unpublished(s, j) then
      slot == Slot(Live(s.claims[j].value), true)
    else if s.producers[s.claims[j].owner].pc.Built? then
      slot == Slot(Live(s.claims[j].value), false)
    else
      EmptySlot(slot)
  }

  ghost predicate SlotsOk<V>(s: State<V>)
  {
    forall j | s.popped <= j < s.popped + s.capacity :: SlotOk(s, j)
  }

  /** An owner holds a claimed, unconsumed position; a producer that passed the full check still has
      room as long as no claim was made since it loaded `head_`. */
  ghost predicate ProducerOk<V>(s: State<V>, p: nat)
    requires p < |s.producers|
  {
    match s.producers[p].pc
    case Idle => true
    case Loading(_, _) => true
    case Loaded(_, _, h, seen) => seen <= |s.claims| && h == seen % s.capacity
    case Checked(_, _, h, seen) =>
      && seen <= |s.claims| && h == seen % s.capacity
      && (seen == |s.claims| ==> seen + 2 <= s.popped + s.capacity)
    case Claimed(v, h, k) => OwnerOk(s, p, v, h, k)
    case Built(v, h, k) => OwnerOk(s, p, v, h, k)
  }

  ghost predicate OwnerOk<V>(s: State<V>, p: nat, v: V, h: nat, k: nat)
  {
    && Consumed(s) <= k < |s.claims|
    && s.claims[k] == Claim(p, v)
    && h == k % s.capacity
  }

  ghost predicate ProducersOk<V>(s: State<V>)
  {
    forall p | 0 <= p < |s.producers| :: ProducerOk(s, p)
  }

  ghost predicate ConsumerOk<V>(s: State<V>)
  {
    var c := s.consumer;
    && !c.Faulted?
    && (!c.Resting? ==> c.tail == s.tail)
    && (c.PopNonEmpty? || c.PopReady? ==> s.popped < |s.claims|)
    && (c.PopReady? ==> s.slots[s.popped % s.capacity].ready)
    && (c.BulkScan? || c.BulkReady? || c.BulkTaken? ==>
          |c.bulk| <= c.max && s.popped + c.max <= |s.claims|)
    && (c.BulkReady? ==> |c.bulk| < c.max && s.slots[Consumed(s) % s.capacity].ready)
  }

  /** The ring never holds more than capacity - 1 positions. */
  ghost predicate CountsOk<V>(s: State<V>)
  {
    && s.head == |s.claims| % s.capacity
    && s.tail == s.popped % s.capacity
    && Consumed(s) <= |s.claims| < s.popped + s.capacity
  }

  /** Completed pops returned the first `popped` claims in claim order, and the values in the
      consumer's hands are the claims that follow. */
  ghost predicate LogOk<V>(s: State<V>) {
    && Consumed(s) <= |s.claims|
    && s.delivered == Values(s.claims[..s.popped])
    && s.consumer.InHand() == Values(s.claims[s.popped..Consumed(s)])
  }

  ghost predicate Inv<V>(s: State<V>) {
    && CountsOk(s)
    && ProducersOk(s)
    && SlotsOk(s)
    && ConsumerOk(s)
    && LogOk(s)
  }

  lemma InitInv<V>(capacity: nat, producers: nat)
    requires capacity >= 2
    ensures Inv(Init<V>(capacity, producers))
  {
  }

  // ----- producer steps

  /** `t` differs from `s` in no slot but that of position `k`, and in no claim but `k`'s. */
  ghost predicate OnlyAt<V>(s: State<V>, t: State<V>, k: nat)
  {
    && t.capacity == s.capacity == |t.slots|
    && t.popped == s.popped && t.consumer == s.consumer
    && s.popped <= k < s.popped + s.capacity
    && (t.claims == s.claims || (k == |s.claims| && |t.claims| == k + 1 && t.claims[..k] == s.claims))
    && (forall i | 0 <= i < s.capacity && i != k % s.capacity :: t.slots[i] == s.slots[i])
  }

  /** The owner of position `j` stands where it stood. */
  ghost predicate SameOwner<V>(s: State<V>, t: State<V>, j: nat)
    requires j < |s.claims| && j < |t.claims| && t.claims[j] == s.claims[j]
    requires |s.producers| == |t.producers|
  {
    && Unpublished(t, j) == Unpublished(s, j)
    && (Unpublished(s, j) ==> t.producers[s.claims[j].owner].pc.Built? == s.producers[s.claims[j].owner].pc.Built?)
  }

  lemma FrameSlot<V>(s: State<V>, t: State<V>, k: nat, j: nat)
    requires Inv(s) && OnlyAt(s, t, k)
    requires s.popped <= j < s.popped + s.capacity && j != k
    requires |s.producers| == |t.producers|
    requires j < |s.claims| ==> t.claims[j] == s.claims[j] && SameOwner(s, t, j)
    ensures SlotOk(t, j)
  {
    assert SlotOk(s, j);
    if j < k {
      SameSlotSamePosition(j, k, s.capacity);
    } else {
      SameSlotSamePosition(k, j, s.capacity);
    }
    assert t.slots[j % t.capacity] == s.slots[j % s.capacity];
  }

  lemma FrameSlots<V>(s: State<V>, t: State<V>, k: nat, p: nat)
    requires Inv(s) && OnlyAt(s, t, k)
    requires p < |s.producers| == |t.producers|
    requires forall q | 0 <= q < |s.producers| && q != p :: t.producers[q] == s.producers[q]
    requires s.producers[p].pc.Owns() ==> s.producers[p].pc.ticket == k
    requires t.producers[p].pc.Owns() ==> t.producers[p].pc.ticket == k
    requires SlotOk(t, k)
    ensures SlotsOk(t)
  {
    forall j | t.popped <= j < t.popped + t.capacity
      ensures SlotOk(t, j)
    {
      if j != k {
        if j < |s.claims| {
          assert t.claims[j] == t.claims[..|s.claims|][j] == s.claims[j];
          assert SameOwner(s, t, j);
        }
        FrameSlot(s, t, k, j);
      }
    }
  }

  lemma ProducerStepInv<V>(s: State<V>, p: nat, spurious: bool)
    requires Inv(s) && p < |s.producers|
    requires LapFreeStep(s, Produce(p, spurious))
    ensures Inv(ProducerStep(s, p, spurious))
  {
    assert ProducerOk(s, p);
    match s.producers[p].pc
    case Idle =>
    case Loading(v, b) => QuietStep(s, p, Loaded(v, b, s.head, |s.claims|));
    case Loaded(v, b, h, seen) =>
      if (h + 1) % s.capacity == s.tail {
        QuietStep(s, p, if b then Loading(v, b) else Idle);
      } else {
        FullCheckPasses(s, p);
        QuietStep(s, p, Checked(v, b, h, seen));
      }
    case Checked(v, b, h, seen) =>
      if s.head == h && !spurious {
        ClaimInv(s, p);
      } else {
        QuietStep(s, p, Loading(v, b));
      }
    case Claimed(v, h, k) => ConstructInv(s, p);
    case Built(v, h, k) => PublishInv(s, p);
  }

  /** A step that changes no more than the program counter of a producer that owns nothing. */
  lemma QuietStep<V>(s: State<V>, p: nat, pc: ProducerPc<V>)
    requires Inv(s) && p < |s.producers|
    requires !s.producers[p].pc.Owns() && !pc.Owns()
    requires PcInRing(pc, s.capacity)
    requires ProducerOk(SetPc(s, p, pc), p)
    ensures Inv(SetPc(s, p, pc))
  {
    var t := SetPc(s, p, pc);
    forall q | 0 <= q < |t.producers|
      ensures ProducerOk(t, q)
    {
      assert ProducerOk(s, q);
    }
    forall j | t.popped <= j < t.popped + t.capacity
      ensures SlotOk(t, j)
    {
      assert SlotOk(s, j);
    }
  }

  /** If nothing was claimed since `head_` was loaded, passing the full check means there is room
      for one more position and one free slot behind it. */
  lemma FullCheckPasses<V>(s: State<V>, p: nat)
    requires Inv(s) && p < |s.producers|
    requires s.producers[p].pc.Loaded?
    requires (s.producers[p].pc.head + 1) % s.capacity != s.tail
    ensures s.producers[p].pc.seen == |s.claims| ==> |s.claims| + 2 <= s.popped + s.capacity
  {
    assert ProducerOk(s, p);
    AddWraps(s.producers[p].pc.seen, 1, s.capacity);
    LapSameSlot(s.popped, s.capacity);
  }

  /** Under the lap hypothesis a successful compare-exchange sees the very `head_` it loaded. */
  lemma ClaimIsFresh<V>(s: State<V>, p: nat)
    requires Inv(s) && Claims(s, Produce(p, false)) && LapFreeStep(s, Produce(p, false))
    ensures s.producers[p].pc.seen == |s.claims|
    ensures |s.claims| + 2 <= s.popped + s.capacity
  {
    assert ProducerOk(s, p);
    SameSlotSamePosition(s.producers[p].pc.seen, |s.claims|, s.capacity);
  }

  lemma ClaimInv<V>(s: State<V>, p: nat)
    requires Inv(s) && Claims(s, Produce(p, false)) && LapFreeStep(s, Produce(p, false))
    ensures Inv(ProducerStep(s, p, false))
  {
    var t := ProducerStep(s, p, false);
    var k := |s.claims|;
    ClaimIsFresh(s, p);
    AddWraps(k, 1, s.capacity);
    assert t.claims[..k] == s.claims;
    forall q | 0 <= q < |t.producers|
      ensures ProducerOk(t, q)
    {
      assert ProducerOk(s, q);
    }
    assert SlotOk(s, k);
    FrameSlots(s, t, k, p);
    assert t.claims[..t.popped] == s.claims[..s.popped];
    assert t.claims[t.popped..Consumed(t)] == s.claims[s.popped..Consumed(s)];
  }

  lemma ConstructInv<V>(s: State<V>, p: nat)
    requires Inv(s) && p < |s.producers| && s.producers[p].pc.Claimed?
    ensures Inv(ProducerStep(s, p, false))
  {
    var t := ProducerStep(s, p, false);
    assert ProducerOk(s, p);
    var k := s.producers[p].pc.ticket;
    forall q | 0 <= q < |t.producers|
      ensures ProducerOk(t, q)
    {
      assert ProducerOk(s, q);
    }
    assert SlotOk(s, k);
    FrameSlots(s, t, k, p);
    ReadySlotsKept(s, t, k);
  }

  lemma PublishInv<V>(s: State<V>, p: nat)
    requires Inv(s) && p < |s.producers| && s.producers[p].pc.Built?
    ensures Inv(ProducerStep(s, p, false))
  {
    var t := ProducerStep(s, p, false);
    assert ProducerOk(s, p);
    var k := s.producers[p].pc.ticket;
    forall q | 0 <= q < |t.producers|
      ensures ProducerOk(t, q)
    {
      assert ProducerOk(s, q);
    }
    assert SlotOk(s, k);
    FrameSlots(s, t, k, p);
    ReadySlotsKept(s, t, k);
  }

  /** Producers never clear a ready flag, so what the consumer saw stays true. */
  lemma ReadySlotsKept<V>(s: State<V>, t: State<V>, k: nat)
    requires Inv(s) && |t.slots| == s.capacity == t.capacity && Consumed(s) <= k < s.popped + s.capacity
    requires t.consumer == s.consumer && t.popped == s.popped && t.claims == s.claims && t.tail == s.tail
    requires forall i | 0 <= i < s.capacity && s.slots[i].ready :: t.slots[i].ready
    ensures ConsumerOk(t)
  {
  }

  // ----- consumer steps

  lemma ConsumerStepInv<V>(s: State<V>)
    requires Inv(s)
    ensures Inv(ConsumerStep(s))
  {
    var t := ConsumerStep(s);
    match s.consumer
    case Resting =>
    case PopTail(_, _) =>
      HeadMeetsTail(s);
      LookInv(s, t);
    case PopNonEmpty(_, _) => LookInv(s, t);
    case PopReady(_) => TakeInv(s);
    case PopTaken(_, _) => ClearInv(s);
    case PopCleared(_, _) => AdvanceInv(s);
    case BulkTail(_) =>
      HeadMeetsTail(s);
      WrappedDistance(s.popped, |s.claims|, s.capacity);
      LookInv(s, t);
    case BulkScan(_, _, bulk) =>
      AddWraps(s.popped, |bulk|, s.capacity);
      LookInv(s, t);
    case BulkReady(_, _, bulk) =>
      AddWraps(s.popped, |bulk|, s.capacity);
      TakeInv(s);
    case BulkTaken(_, _, _) => ClearInv(s);
    case BulkEnd(_, _) => AdvanceInv(s);
  }

  /** The empty check is exact: the two indices agree just when every claim was popped. */
  lemma HeadMeetsTail<V>(s: State<V>)
    requires Inv(s)
    ensures s.head == s.tail <==> |s.claims| == s.popped
  {
    SameSlotSamePosition(s.popped, |s.claims|, s.capacity);
  }

  /** A consumer step that only loads. */
  lemma LookInv<V>(s: State<V>, t: State<V>)
    requires Inv(s)
    requires t == s.(consumer := t.consumer) && ConsumerInRing(t.consumer, t.capacity)
    requires t.consumer.InHand() == s.consumer.InHand()
    requires !t.consumer.FlagPending() && !s.consumer.FlagPending()
    requires ConsumerOk(t)
    ensures Inv(t)
  {
    forall j | t.popped <= j < t.popped + t.capacity
      ensures SlotOk(t, j)
    {
      assert SlotOk(s, j);
    }
    forall q | 0 <= q < |t.producers|
      ensures ProducerOk(t, q)
    {
      assert ProducerOk(s, q);
    }
  }

  /** A ready slot at the consumer's position holds exactly the next claim, and nobody owns it. */
  lemma ReadyMeansNext<V>(s: State<V>)
    requires Inv(s) && Consumed(s) < |s.claims| && s.slots[Consumed(s) % s.capacity].ready
    ensures !Unpublished(s, Consumed(s))
    ensures s.slots[Consumed(s) % s.capacity] == Slot(Live(s.claims[Consumed(s)].value), true)
  {
    assert SlotOk(s, Consumed(s));
  }

  /** A consumer step that leaves claims and producers alone and takes no claim back. */
  lemma ProducersKept<V>(s: State<V>, t: State<V>)
    requires ProducersOk(s) && t.producers == s.producers && t.claims == s.claims && t.capacity == s.capacity
    requires s.popped <= t.popped
    requires forall p | 0 <= p < |s.producers| && s.producers[p].pc.Owns() :: Consumed(t) <= s.producers[p].pc.ticket
    ensures ProducersOk(t)
  {
    forall q | 0 <= q < |t.producers|
      ensures ProducerOk(t, q)
    {
      assert ProducerOk(s, q);
    }
  }

  /** What is taken was published, so no owner waits for it. */
  lemma OwnersAreLater<V>(s: State<V>, k: nat)
    requires Inv(s) && k == Consumed(s) < |s.claims| && !Unpublished(s, k)
    ensures forall p | 0 <= p < |s.producers| && s.producers[p].pc.Owns() :: k + 1 <= s.producers[p].pc.ticket
  {
    forall p | 0 <= p < |s.producers| && s.producers[p].pc.Owns()
      ensures k + 1 <= s.producers[p].pc.ticket
    {
      assert ProducerOk(s, p);
    }
  }

  lemma TakeSlots<V>(s: State<V>)
    requires Inv(s) && (s.consumer.PopReady? || s.consumer.BulkReady?)
    ensures SlotsOk(ConsumerStep(s)) && Consumed(ConsumerStep(s)) == Consumed(s) + 1
  {
    var t := ConsumerStep(s);
    var k := Consumed(s);
    if s.consumer.BulkReady? {
      AddWraps(s.popped, |s.consumer.bulk|, s.capacity);
    }
    ReadyMeansNext(s);
    forall j | t.popped <= j < t.popped + t.capacity
      ensures SlotOk(t, j)
    {
      assert SlotOk(s, j);
      if j < k {
        SameSlotSamePosition(j, k, s.capacity);
      } else {
        SameSlotSamePosition(k, j, s.capacity);
      }
    }
  }

  lemma TakeLog<V>(s: State<V>)
    requires Inv(s) && (s.consumer.PopReady? || s.consumer.BulkReady?)
    ensures CountsOk(ConsumerStep(s)) && ConsumerOk(ConsumerStep(s)) && LogOk(ConsumerStep(s))
  {
    var t := ConsumerStep(s);
    var k := Consumed(s);
    if s.consumer.BulkReady? {
      AddWraps(s.popped, |s.consumer.bulk|, s.capacity);
    }
    ReadyMeansNext(s);
    ValuesSnoc(s.claims, s.popped, k);
  }

  lemma ValuesSnoc<V>(claims: seq<Claim<V>>, i: nat, k: nat)
    requires i <= k < |claims|
    ensures Values(claims[i..k + 1]) == Values(claims[i..k]) + [claims[k].value]
  {
    assert claims[i..k + 1] == claims[i..k] + [claims[k]];
  }

  lemma TakeInv<V>(s: State<V>)
    requires Inv(s) && (s.consumer.PopReady? || s.consumer.BulkReady?)
    ensures Inv(ConsumerStep(s))
  {
    TakeSlots(s);
    TakeLog(s);
    ReadyMeansNext(s);
    OwnersAreLater(s, Consumed(s));
    ProducersKept(s, ConsumerStep(s));
  }

  lemma ClearSlots<V>(s: State<V>)
    requires Inv(s) && (s.consumer.PopTaken? || s.consumer.BulkTaken?)
    ensures SlotsOk(ConsumerStep(s)) && Consumed(ConsumerStep(s)) == Consumed(s)
  {
    var t := ConsumerStep(s);
    var k := Consumed(s) - 1;
    if s.consumer.BulkTaken? {
      AddWraps(s.popped, |s.consumer.bulk| - 1, s.capacity);
    }
    forall j | t.popped <= j < t.popped + t.capacity
      ensures SlotOk(t, j)
    {
      assert SlotOk(s, j);
      if j < k {
        SameSlotSamePosition(j, k, s.capacity);
      } else {
        SameSlotSamePosition(k, j, s.capacity);
      }
    }
  }

  lemma OwnersTickets<V>(s: State<V>)
    requires Inv(s)
    ensures forall p | 0 <= p < |s.producers| && s.producers[p].pc.Owns() :: Consumed(s) <= s.producers[p].pc.ticket
  {
    forall p | 0 <= p < |s.producers| && s.producers[p].pc.Owns()
      ensures Consumed(s) <= s.producers[p].pc.ticket
    {
      assert ProducerOk(s, p);
    }
  }

  lemma ClearInv<V>(s: State<V>)
    requires Inv(s) && (s.consumer.PopTaken? || s.consumer.BulkTaken?)
    ensures Inv(ConsumerStep(s))
  {
    ClearSlots(s);
    OwnersTickets(s);
    ProducersKept(s, ConsumerStep(s));
  }

  lemma AdvanceSlots<V>(s: State<V>)
    requires Inv(s) && (s.consumer.PopCleared? || s.consumer.BulkEnd?)
    ensures SlotsOk(ConsumerStep(s))
  {
    var t := ConsumerStep(s);
    forall j | t.popped <= j < t.popped + t.capacity
      ensures SlotOk(t, j)
    {
      if j < s.popped + s.capacity {
        assert SlotOk(s, j);
      } else {
        assert SlotOk(s, j - s.capacity);
        LapSameSlot(j - s.capacity, s.capacity);
      }
    }
  }

  lemma AdvanceLog<V>(s: State<V>)
    requires Inv(s) && (s.consumer.PopCleared? || s.consumer.BulkEnd?)
    ensures CountsOk(ConsumerStep(s)) && ConsumerOk(ConsumerStep(s)) && LogOk(ConsumerStep(s))
    ensures Consumed(ConsumerStep(s)) == Consumed(s)
  {
    var t := ConsumerStep(s);
    AddWraps(s.popped, |s.consumer.InHand()|, s.capacity);
    assert s.claims[..t.popped] == s.claims[..s.popped] + s.claims[s.popped..t.popped];
  }

  lemma AdvanceInv<V>(s: State<V>)
    requires Inv(s) && (s.consumer.PopCleared? || s.consumer.BulkEnd?)
    ensures Inv(ConsumerStep(s))
  {
    AdvanceSlots(s);
    AdvanceLog(s);
    OwnersTickets(s);
    ProducersKept(s, ConsumerStep(s));
  }

  // ----- whole runs

  lemma StepInv<V>(s: State<V>, a: Action<V>)
    requires Inv(s) && LapFreeStep(s, a)
    ensures Inv(Step(s, a))
  {
    match a
    case Push(p, v, b) =>
      if p < |s.producers| && s.producers[p].pc.Idle? {
        QuietStep(s, p, Loading(v, b));
      }
    case Produce(p, spurious) =>
      if p < |s.producers| {
        ProducerStepInv(s, p, spurious);
      }
    case StartPop(b) =>
      if s.consumer.Resting? {
        LookInv(s, Step(s, a));
      }
    case StartBulk =>
      if s.consumer.Resting? {
        LookInv(s, Step(s, a));
      }
    case Consume => ConsumerStepInv(s);
  }

  lemma {:induction false} RunInv<V>(s: State<V>, acts: seq<Action<V>>)
    requires Inv(s) && LapFree(s, acts)
    ensures Inv(Run(s, acts))
    decreases |acts|
  {
    if acts != [] {
      StepInv(s, acts[0]);
      RunInv(Step(s, acts[0]), acts[1..]);
    }
  }
}
