/**
 The lock-free ring of src/queue.h as a step system: every step is one atomic load, store,
 compare-exchange, construction or move of one thread, and steps interleave freely.
 `claims`, `popped`, `delivered`, `sent`, `seen` and `ticket` are history: no step branches on them.
 */
module RingProtocol {

  /** The storage of a slot: never used, holding an object, or holding a moved-from object. */
  datatype Cell<V> = Raw | Live(value: V) | Moved

  datatype Slot<V> = Slot(cell: Cell<V>, ready: bool)

  /** Producer `owner` won position number (its index in `claims`) with a successful compare-exchange for `value`. */
  datatype Claim<V> = Claim(owner: nat, value: V)

  /** Where a producer stands inside Emplace (`blocking`) or TryEmplace. */
  datatype ProducerPc<V> =
    | Idle
    | Loading(value: V, blocking: bool)
    | Loaded(value: V, blocking: bool, head: nat, seen: nat)
    | Checked(value: V, blocking: bool, head: nat, seen: nat)
    | Claimed(value: V, head: nat, ticket: nat)
    | Built(value: V, head: nat, ticket: nat)
  {
    predicate Owns() {
      Claimed? || Built?
    }
  }

  /** `sent` lists the values this producer's calls reported as accepted, in program order. */
  datatype Producer<V> = Producer(pc: ProducerPc<V>, sent: seq<V>)

  /** Where the consumer stands inside Pop (`blocking`), TryPop or TryPopBulk. */
  datatype ConsumerPc<V> =
    | Resting
    | PopTail(blocking: bool, tail: nat)
    | PopNonEmpty(blocking: bool, tail: nat)
    | PopReady(tail: nat)
    | PopTaken(tail: nat, value: V)
    | PopCleared(tail: nat, value: V)
    | BulkTail(tail: nat)
    | BulkScan(tail: nat, max: nat, bulk: seq<V>)
    | BulkReady(tail: nat, max: nat, bulk: seq<V>)
    | BulkTaken(tail: nat, max: nat, bulk: seq<V>)
    | BulkEnd(tail: nat, bulk: seq<V>)
    | Faulted
  {
    /** The values moved out of the ring whose positions `tail_` does not cover yet. */
    function InHand(): seq<V> {
      match this
      case PopTaken(_, v) => [v]
      case PopCleared(_, v) => [v]
      case BulkScan(_, _, bulk) => bulk
      case BulkReady(_, _, bulk) => bulk
      case BulkTaken(_, _, bulk) => bulk
      case BulkEnd(_, bulk) => bulk
      case _ => []
    }

    /** The last moved slot still carries its ready flag. */
    predicate FlagPending() {
      PopTaken? || BulkTaken?
    }
  }

  datatype Memory<V> = Memory(
    capacity: nat,
    head: nat,
    tail: nat,
    slots: seq<Slot<V>>,
    producers: seq<Producer<V>>,
    consumer: ConsumerPc<V>,
    claims: seq<Claim<V>>,
    popped: nat,
    delivered: seq<V>)

  /** Starting a call, or letting a thread take its next atomic step. `spurious` lets
      compare_exchange_weak fail although the values agree. */
  datatype Action<V> =
    | Push(p: nat, value: V, blocking: bool)
    | Produce(p: nat, spurious: bool)
    | StartPop(blocking: bool)
    | StartBulk
    | Consume

  /** Every index a thread holds lies inside the ring. */
  ghost predicate WellFormed<V>(s: Memory<V>) {
    && 2 <= s.capacity == |s.slots|
    && s.head < s.capacity
    && s.tail < s.capacity
    && (forall p | 0 <= p < |s.producers| :: PcInRing(s.producers[p].pc, s.capacity))
    && ConsumerInRing(s.consumer, s.capacity)
  }

  predicate PcInRing<V>(pc: ProducerPc<V>, n: nat) {
    !pc.Idle? && !pc.Loading? ==> pc.head < n
  }

  predicate ConsumerInRing<V>(c: ConsumerPc<V>, n: nat) {
    && (!c.Resting? && !c.Faulted? ==> c.tail < n)
    && (c.BulkTaken? ==> |c.bulk| > 0)
  }

  type State<V> = s: Memory<V> | WellFormed(s)
    witness Memory(2, 0, 0, [Slot(Raw, false), Slot(Raw, false)], [], Resting, [], 0, [])

  /** The constructor: all slots unused, no thread inside a call. */
  function Init<V>(capacity: nat, producers: nat): State<V>
    requires capacity >= 2
  {
    Memory(capacity, 0, 0, seq(capacity, _ => Slot(Raw, false)),
          seq(producers, _ => Producer(Idle, [])), Resting, [], 0, [])
  }

  function SetPc<V>(s: State<V>, p: nat, pc: ProducerPc<V>): State<V>
    requires p < |s.producers| && PcInRing(pc, s.capacity)
  {
    s.(producers := s.producers[p := s.producers[p].(pc := pc)])
  }

  /** The next atomic step of producer `p` inside Emplace or TryEmplace. */
  function ProducerStep<V>(s: State<V>, p: nat, spurious: bool): (t: State<V>)
    requires p < |s.producers|
  {
    match s.producers[p].pc
    case Idle => s
    case Loading(v, b) => SetPc(s, p, Loaded(v, b, s.head, |s.claims|))
    case Loaded(v, b, h, seen) =>
      if (h + 1) % s.capacity == s.tail then
        SetPc(s, p, if b then Loading(v, b) else Idle)
      else
        SetPc(s, p, Checked(v, b, h, seen))
    case Checked(v, b, h, seen) =>
      if s.head == h && !spurious then
        SetPc(s, p, Claimed(v, h, |s.claims|)).(
          head := (h + 1) % s.capacity, claims := s.claims + [Claim(p, v)])
      else
        SetPc(s, p, Loading(v, b))
    case Claimed(v, h, k) =>
      SetPc(s, p, Built(v, h, k)).(slots := s.slots[h := s.slots[h].(cell := Live(v))])
    case Built(v, h, k) =>
      s.(producers := s.producers[p := Producer(Idle, s.producers[p].sent + [v])],
         slots := s.slots[h := s.slots[h].(ready := true)])
  }

  /** The next atomic step of the consumer. Moving out of a slot that holds no object is a fault. */
  function ConsumerStep<V>(s: State<V>): (t: State<V>)
  {
    var n := s.capacity;
    match s.consumer
    case Resting => s
    case Faulted => s
    case PopTail(b, t) =>
      if s.head == t then
        if b then s else s.(consumer := Resting)
      else
        s.(consumer := PopNonEmpty(b, t))
    case PopNonEmpty(b, t) =>
      if s.slots[t].ready then
        s.(consumer := PopReady(t))
      else
        s.(consumer := if b then PopTail(b, t) else Resting)
    case PopReady(t) =>
      if s.slots[t].cell.Live? then
        s.(consumer := PopTaken(t, s.slots[t].cell.value),
           slots := s.slots[t := s.slots[t].(cell := Moved)])
      else
        s.(consumer := Faulted)
    case PopTaken(t, v) =>
      s.(consumer := PopCleared(t, v), slots := s.slots[t := s.slots[t].(ready := false)])
    case PopCleared(t, v) =>
      s.(consumer := Resting, tail := (t + 1) % n, popped := s.popped + 1,
         delivered := s.delivered + [v])
    case BulkTail(t) =>
      if s.head == t then
        s.(consumer := Resting)
      else
        s.(consumer := BulkScan(t, (s.head + n - t) % n, []))
    case BulkScan(t, max, bulk) =>
      if |bulk| < max && s.slots[(t + |bulk|) % n].ready then
        s.(consumer := BulkReady(t, max, bulk))
      else
        s.(consumer := BulkEnd(t, bulk))
    case BulkReady(t, max, bulk) =>
      var i := (t + |bulk|) % n;
      if s.slots[i].cell.Live? then
        s.(consumer := BulkTaken(t, max, bulk + [s.slots[i].cell.value]),
           slots := s.slots[i := s.slots[i].(cell := Moved)])
      else
        s.(consumer := Faulted)
    case BulkTaken(t, max, bulk) =>
      var i := (t + |bulk| - 1) % n;
      s.(consumer := BulkScan(t, max, bulk), slots := s.slots[i := s.slots[i].(ready := false)])
    case BulkEnd(t, bulk) =>
      s.(consumer := Resting, tail := (t + |bulk|) % n, popped := s.popped + |bulk|,
         delivered := s.delivered + bulk)
  }

  /** One step of the whole system; an action that is not enabled changes nothing. */
  function Step<V>(s: State<V>, a: Action<V>): (t: State<V>)
  {
    match a
    case Push(p, v, b) =>
      if p < |s.producers| && s.producers[p].pc.Idle? then SetPc(s, p, Loading(v, b)) else s
    case Produce(p, spurious) =>
      if p < |s.producers| then ProducerStep(s, p, spurious) else s
    case StartPop(b) =>
      if s.consumer.Resting? then s.(consumer := PopTail(b, s.tail)) else s
    case StartBulk =>
      if s.consumer.Resting? then s.(consumer := BulkTail(s.tail)) else s
    case Consume => ConsumerStep(s)
  }

  function Run<V>(s: State<V>, acts: seq<Action<V>>): (t: State<V>)
    decreases |acts|
  {
    if acts == [] then s else Run(Step(s, acts[0]), acts[1..])
  }

  /** Action `a` is a compare-exchange that succeeds in `s`. */
  predicate Claims<V>(s: State<V>, a: Action<V>) {
    && a.Produce?
    && a.p < |s.producers|
    && s.producers[a.p].pc.Checked?
    && s.head == s.producers[a.p].pc.head
    && !a.spurious
  }

  /** The hypothesis on one step: if it claims, fewer than `capacity` claims were made since this
      producer loaded `head_`. */
  predicate LapFreeStep<V>(s: State<V>, a: Action<V>) {
    Claims(s, a) ==> |s.claims| - s.producers[a.p].pc.seen < s.capacity
  }

  /** The hypothesis on a whole run. */
  predicate LapFree<V>(s: State<V>, acts: seq<Action<V>>)
    decreases |acts|
  {
    acts != [] ==> LapFreeStep(s, acts[0]) && LapFree(Step(s, acts[0]), acts[1..])
  }

  function Values<V>(claims: seq<Claim<V>>): (vs: seq<V>)
    ensures |vs| == |claims|
    ensures forall i | 0 <= i < |claims| :: vs[i] == claims[i].value
  {
    seq(|claims|, i requires 0 <= i < |claims| => claims[i].value)
  }
}
