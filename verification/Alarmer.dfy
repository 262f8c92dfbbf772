/**
 src/alarmer.cpp in its own form: the worker's loop over the shared queue, its delivery loops, and
 the teardown of the queue, for every schedule of the producers and every sequence of clock readings.
 */
module Alarmer {
  import opened RingProtocol
  import opened RingSafety
  import opened RingFifo
  import opened Limiter
  import opened AlarmPath
  import opened MpscQueue

  /** One turn of the worker's loop: what the producers do around it, and what the clock shows. */
  datatype Round = Round(gaps: seq<Gap<Message>>, now: int)

  class AlarmWorker {
    const queue: MPSCQueue<Message>
    const limiter: RateLimiter
    // The logs of the interceptors, then of the exporters.
    var sinks: seq<seq<Message>>
    ghost var checked: seq<Reading>

    ghost predicate Valid()
      reads this, limiter, queue, queue.slots
    {
      && queue.Valid() && queue.consumer.Resting?
      && queue.delivered == Messages(checked)
      && limiter.Valid() && limiter.limiter == NoteAll(map[], checked)
      && (forall i | 0 <= i < |sinks| :: sinks[i] == Messages(Admitted(map[], checked)))
    }

    constructor (threads: nat, count: nat)
      ensures Valid() && checked == [] && |sinks| == count
      ensures fresh(queue) && fresh(queue.slots) && fresh(limiter)
    {
      queue := new MPSCQueue<Message>(QUEUE_CAPACITY, threads);
      limiter := new RateLimiter();
      sinks := seq(count, _ => []);
      checked := [];
    }

    /** Lines 28-33: each interceptor, then each exporter, gets the alarm. */
    method Deliver(m: Message)
      modifies this`sinks
      ensures |sinks| == |old(sinks)|
      ensures forall i | 0 <= i < |sinks| :: sinks[i] == old(sinks)[i] + [m]
    {
      var k := 0;
      while k < |sinks|
        invariant k <= |sinks| == |old(sinks)|
        invariant forall i | 0 <= i < |sinks| :: sinks[i] == old(sinks)[i] + if i < k then [m] else []
      {
        sinks := sinks[k := sinks[k] + [m]];
        k := k + 1;
      }
    }

    /** Lines 26-35 once. */
    method Turn(round: Round)
      requires Valid()
      modifies this, limiter, queue, queue.slots
      ensures Valid() && Later(old(queue.View()), queue.View())
      ensures |sinks| == |old(sinks)|
      ensures checked == old(checked)
              || (|checked| == |old(checked)| + 1 && old(checked) <= checked && checked[|old(checked)|].now == round.now)
      ensures Drainable(old(queue.View()), 1) ==> |checked| == |old(checked)| + 1
    {
      var ok, out := queue.TryPop(round.gaps);
      if ok {
        var r := Reading(out.value, round.now);
        AdmittedSnoc(map[], checked, r);
        MessagesConcat(checked, [r]);
        MessagesConcat(Admitted(map[], checked), [r]);
        var pass := limiter.Check(out.value, round.now);
        checked := checked + [r];
        if pass {
          Deliver(out.value);
        }
      }
    }

    /** Lines 22-37: until told to stop, however long that takes. Each interceptor and exporter ends up
        with the limiter's filter of a prefix of the claims, in claim order. */
    method Work(rounds: seq<Round>)
      requires Valid()
      modifies this, limiter, queue, queue.slots
      ensures Valid() && |sinks| == |old(sinks)| && old(checked) <= checked
      ensures |checked| <= |queue.claims|
      ensures Messages(checked) == Values(queue.claims[..|checked|])
      ensures forall i | 0 <= i < |sinks| :: sinks[i] == Messages(Admitted(map[], checked))
    {
      var k := 0;
      while k < |rounds|
        invariant Valid() && |sinks| == |old(sinks)| && old(checked) <= checked
      {
        Turn(rounds[k]);
        k := k + 1;
      }
    }

    /** Lines 50-53 of src/queue.h, after the worker was joined and with no Alarm* call running: slot by
        slot, what is still ready is destroyed. Nothing that was queued escapes and nothing that was
        delivered is destroyed again. */
    method DestroyQueue() returns (destroyed: seq<Message>)
      requires Valid() && AllIdle(queue.View())
      ensures destroyed == ReadyValues(queue.slots[..])
      ensures multiset(Messages(checked)) + multiset(destroyed) == multiset(Values(queue.claims))
    {
      destroyed := [];
      var i := 0;
      while i < queue.capacity
        invariant i <= queue.capacity
        invariant destroyed == ReadyValues(queue.slots[..i])
      {
        assert queue.slots[..i + 1][..i] == queue.slots[..i];
        if queue.slots[i].ready && queue.slots[i].cell.Live? {
          destroyed := destroyed + [queue.slots[i].cell.value];
        }
        i := i + 1;
      }
      assert queue.slots[..i] == queue.slots[..];
      DestroysTheQueue(queue.View());
      AllClaims(queue.View());
      assert MovedOut(queue.View()) == Messages(checked) + [];
    }
  }
}
