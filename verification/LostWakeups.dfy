/** Runs of include/fileguard/event_queue.hpp in which a lockless call notifies between
    the other thread's test and its sleep, so that the notification is lost. */
module LostWakeups {
  import opened Common
  import opened EventQueue
  import opened QueueSteps
  import opened QueueGuarantees

  lemma {:induction false} RunAppend<T>(s: State<T>, steps: seq<Step<T>>, step: Step<T>)
    requires s.ring.Capacity() > 0 && Enabled(Run(s, steps), step)
    ensures Run(s, steps + [step]) == Do(Run(s, steps), step)
    decreases |steps|
  {
    if |steps| == 0 {
      assert steps + [step] == [step];
    } else {
      var next := if Enabled(s, steps[0]) then Do(s, steps[0]) else s;
      RunAppend(next, steps[1..], step);
      assert (steps + [step])[1..] == steps[1..] + [step];
    }
  }

  // One step more, leading from `here` to `next`.
  lemma Then<T>(s: State<T>, steps: seq<Step<T>>, here: State<T>, step: Step<T>, next: State<T>)
    returns (steps': seq<Step<T>>)
    requires s.ring.Capacity() > 0 && Run(s, steps) == here && Enabled(here, step) && Do(here, step) == next
    ensures Run(s, steps') == next
  {
    RunAppend(s, steps, step);
    steps' := steps + [step];
  }

  // Nobody is in a call.
  function Idle<T>(r: Ring<T>, seenTail: nat): State<T> {
    State(r, false, Free, PIdle, CIdle, SIdle, seenTail, 0)
  }

  // The producer has the mutex.
  function ProducerHas<T>(r: Ring<T>, p: Producer<T>, c: Consumer, seenTail: nat, seenHead: nat): State<T> {
    State(r, false, ByProducer, p, c, SIdle, seenTail, seenHead)
  }

  // The consumer has the mutex.
  function ConsumerHas<T>(r: Ring<T>, p: Producer<T>, c: Consumer): State<T> {
    State(r, false, ByConsumer, p, c, SIdle, 0, 0)
  }

  // The ring after an item was pushed, and after its first item was taken.
  function Grown<T>(r: Ring<T>, x: T): Ring<T>
    requires r.Capacity() > 0
  {
    StoreHead(StoreSlot(r, r.head, x), r.head, x)
  }

  function Shrunk<T>(r: Ring<T>): Ring<T>
    requires r.Capacity() > 0
  {
    StoreTail(TakeSlot(r, r.tail), r.tail)
  }

  // ------------------------------------------------------------ try_push

  // pop as far as its two index reads.
  lemma PopTests<T>(s: State<T>, steps: seq<Step<T>>, r: Ring<T>) returns (steps': seq<Step<T>>)
    requires s.ring.Capacity() > 0 && Run(s, steps) == Idle(r, 0) && r.head == r.tail && r.accepted == []
    ensures Run(s, steps') == ConsumerHas(r, PIdle, CHaveBoth(false, Locked, r.head, r.tail))
  {
    var locking := Idle(r, 0).(consumer := CLocking);
    var checking := ConsumerHas(r, PIdle, CChecking);
    var reading := ConsumerHas(r, PIdle, CReading(false, Locked));
    var haveHead := ConsumerHas(r, PIdle, CHaveHead(false, Locked, r.head));
    steps' := Then(s, steps, Idle(r, 0), CallPop, locking);
    steps' := Then(s, steps', locking, ConsumerMoves, checking);
    steps' := Then(s, steps', checking, ConsumerMoves, reading);
    steps' := Then(s, steps', reading, ConsumerMoves, haveHead);
    steps' := Then(s, steps', haveHead, ConsumerMoves, ConsumerHas(r, PIdle, CHaveBoth(false, Locked, r.head, r.tail)));
  }

  // try_push while the consumer is past its reads.
  lemma TryPush<T>(s: State<T>, steps: seq<Step<T>>, r: Ring<T>, c: Consumer, x: T) returns (steps': seq<Step<T>>)
    requires s.ring.Capacity() > 0 && Run(s, steps) == ConsumerHas(r, PIdle, c) && c.CHaveBoth?
    requires r.Capacity() > 0 && r.freed == 0 && Next(r.head, r.Capacity()) != r.tail
    ensures Run(s, steps') == ConsumerHas(Grown(r, x), PIdle, c)
  {
    var h := r.head;
    var reading := ConsumerHas(r, PReading(x, Mode.Lockless), c);
    var haveHead := ConsumerHas(r, PHaveHead(x, Mode.Lockless, h), c);
    var haveBoth := ConsumerHas(r, PHaveBoth(x, Mode.Lockless, h, r.tail), c);
    var writing := ConsumerHas(r, PWriting(x, Mode.Lockless, h), c);
    var publishing := ConsumerHas(StoreSlot(r, h, x), PPublishing(x, Mode.Lockless, h), c);
    var notifying := ConsumerHas(Grown(r, x), PNotifying, c);
    steps' := Then(s, steps, ConsumerHas(r, PIdle, c), CallTryPush(x), reading);
    steps' := Then(s, steps', reading, ProducerMoves, haveHead);
    steps' := Then(s, steps', haveHead, ProducerMoves, haveBoth);
    steps' := Then(s, steps', haveBoth, ProducerMoves, writing);
    steps' := Then(s, steps', writing, ProducerMoves, publishing);
    steps' := Then(s, steps', publishing, ProducerMoves, notifying);
    steps' := Then(s, steps', notifying, ProducerMoves, ConsumerHas(Grown(r, x), PIdle, c));
  }

  /** try_push can lose the wakeup: the consumer sleeps on a queue that holds an item, no
      call is under way on the producer side, and no thread can move. */
  lemma LostWakeup<T>(capacity: nat, x: T) returns (steps: seq<Step<T>>)
    requires capacity >= 2
    ensures var s := Run(Initial<T>(capacity), steps);
            && !s.stop && Sleeps(s.consumer) && s.producer.PIdle? && s.stopper.SIdle?
            && s.ring.accepted == [x] && s.ring.popped == [] && Quiet(s)
  {
    var s := Initial<T>(capacity);
    var r, c := s.ring, CHaveBoth(false, Locked, 0, 0);
    steps := PopTests(s, [], r);
    steps := TryPush(s, steps, r, c, x);
    var end := Idle(Grown(r, x), 0).(consumer := CWaiting(false));
    steps := Then(s, steps, ConsumerHas(Grown(r, x), PIdle, c), ConsumerMoves, end);
  }

  // ------------------------------------------------------------ try_pop

  // push as far as its two index reads.
  lemma PushTests<T>(s: State<T>, steps: seq<Step<T>>, r: Ring<T>, x: T) returns (steps': seq<Step<T>>)
    requires s.ring.Capacity() > 0 && Run(s, steps) == Idle(r, 0) && r.freed == 0
    ensures Run(s, steps') == ProducerHas(r, PHaveBoth(x, Locked, r.head, r.tail), CIdle, 0, 0)
  {
    var locking := Idle(r, 0).(producer := PLocking(x));
    var checking := ProducerHas(r, PChecking(x), CIdle, 0, 0);
    var reading := ProducerHas(r, PReading(x, Locked), CIdle, 0, 0);
    var haveHead := ProducerHas(r, PHaveHead(x, Locked, r.head), CIdle, 0, 0);
    steps' := Then(s, steps, Idle(r, 0), CallPush(x), locking);
    steps' := Then(s, steps', locking, ProducerMoves, checking);
    steps' := Then(s, steps', checking, ProducerMoves, reading);
    steps' := Then(s, steps', reading, ProducerMoves, haveHead);
    steps' := Then(s, steps', haveHead, ProducerMoves, ProducerHas(r, PHaveBoth(x, Locked, r.head, r.tail), CIdle, 0, 0));
  }

  // The rest of push when there is room.
  lemma PushEnds<T>(s: State<T>, steps: seq<Step<T>>, r: Ring<T>, x: T) returns (steps': seq<Step<T>>)
    requires s.ring.Capacity() > 0 && r.Capacity() > 0
    requires Run(s, steps) == ProducerHas(r, PHaveBoth(x, Locked, r.head, r.tail), CIdle, 0, 0)
    requires Next(r.head, r.Capacity()) != r.tail
    ensures Run(s, steps') == Idle(Grown(r, x), 0)
  {
    var h := r.head;
    var haveBoth := ProducerHas(r, PHaveBoth(x, Locked, h, r.tail), CIdle, 0, 0);
    var writing := ProducerHas(r, PWriting(x, Locked, h), CIdle, 0, 0);
    var publishing := ProducerHas(StoreSlot(r, h, x), PPublishing(x, Locked, h), CIdle, 0, 0);
    var unlocking := ProducerHas(Grown(r, x), PUnlocking, CIdle, 0, 0);
    var notifying := Idle(Grown(r, x), 0).(producer := PNotifying);
    steps' := Then(s, steps, haveBoth, ProducerMoves, writing);
    steps' := Then(s, steps', writing, ProducerMoves, publishing);
    steps' := Then(s, steps', publishing, ProducerMoves, unlocking);
    steps' := Then(s, steps', unlocking, ProducerMoves, notifying);
    steps' := Then(s, steps', notifying, ProducerMoves, Idle(Grown(r, x), 0));
  }

  // A ring nothing was ever taken from.
  ghost predicate Untouched<T>(r: Ring<T>) {
    GoodRing(r) && r.freed == 0 && r.popped == []
  }

  lemma UntouchedGrows<T>(r: Ring<T>, x: T)
    requires Untouched(r) && |r.accepted| + 1 < r.Capacity()
    ensures Next(r.head, r.Capacity()) != r.tail
    ensures Untouched(Grown(r, x)) && Grown(r, x).accepted == r.accepted + [x] && Grown(r, x).Capacity() == r.Capacity()
  {
    PosLap(0, |r.accepted| + 1, r.Capacity());
    StoreSlotOk(r, x);
    StoreHeadOk(StoreSlot(r, r.head, x), x);
  }

  // Pushing the items one after the other.
  lemma {:induction false} Fill<T>(s: State<T>, steps: seq<Step<T>>, r: Ring<T>, items: seq<T>)
    returns (steps': seq<Step<T>>, r': Ring<T>)
    requires s.ring.Capacity() > 0 && Run(s, steps) == Idle(r, 0)
    requires Untouched(r) && |r.accepted| + |items| < r.Capacity()
    ensures Run(s, steps') == Idle(r', 0)
    ensures Untouched(r') && r'.accepted == r.accepted + items && r'.Capacity() == r.Capacity()
    decreases |items|
  {
    if |items| == 0 {
      steps', r' := steps, r;
    } else {
      var x := items[0];
      UntouchedGrows(r, x);
      steps' := PushTests(s, steps, r, x);
      steps' := PushEnds(s, steps', r, x);
      steps', r' := Fill(s, steps', Grown(r, x), items[1..]);
      assert r.accepted + items == r.accepted + [x] + items[1..];
    }
  }

  // try_pop while the producer is past its reads.
  lemma TryPop<T>(s: State<T>, steps: seq<Step<T>>, r: Ring<T>, p: Producer<T>) returns (steps': seq<Step<T>>)
    requires s.ring.Capacity() > 0 && Run(s, steps) == ProducerHas(r, p, CIdle, 0, 0) && p.PHaveBoth?
    requires r.Capacity() > 0 && r.head != r.tail
    ensures Run(s, steps') == ProducerHas(Shrunk(r), p, CIdle, 0, |r.accepted|)
  {
    var t, n := r.tail, |r.accepted|;
    var reading := ProducerHas(r, p, CReading(true, Mode.Lockless), 0, 0);
    var haveHead := ProducerHas(r, p, CHaveHead(true, Mode.Lockless, r.head), 0, n);
    var haveBoth := ProducerHas(r, p, CHaveBoth(true, Mode.Lockless, r.head, t), 0, n);
    var taking := ProducerHas(r, p, CTaking(Mode.Lockless, t), 0, n);
    var publishing := ProducerHas(TakeSlot(r, t), p, CPublishing(Mode.Lockless, t), 0, n);
    var notifying := ProducerHas(Shrunk(r), p, CNotifying, 0, n);
    steps' := Then(s, steps, ProducerHas(r, p, CIdle, 0, 0), CallTryPop, reading);
    steps' := Then(s, steps', reading, ConsumerMoves, haveHead);
    steps' := Then(s, steps', haveHead, ConsumerMoves, haveBoth);
    steps' := Then(s, steps', haveBoth, ConsumerMoves, taking);
    steps' := Then(s, steps', taking, ConsumerMoves, publishing);
    steps' := Then(s, steps', publishing, ConsumerMoves, notifying);
    steps' := Then(s, steps', notifying, ConsumerMoves, ProducerHas(Shrunk(r), p, CIdle, 0, n));
  }

  lemma FullRing<T>(r: Ring<T>)
    requires Untouched(r) && |r.accepted| + 1 == r.Capacity()
    ensures Next(r.head, r.Capacity()) == r.tail && r.head != r.tail
    ensures Shrunk(r).accepted == r.accepted && Shrunk(r).freed == 1 && Room(Shrunk(r))
    ensures Shrunk(r).Capacity() == r.Capacity()
  {
    PosLap(0, r.Capacity(), r.Capacity());
    PosLap(0, r.Capacity() - 1, r.Capacity());
  }

  lemma InitialUntouched<T>(capacity: nat)
    requires capacity >= 2
    ensures Initial<T>(capacity) == Idle(Initial<T>(capacity).ring, 0) && Untouched(Initial<T>(capacity).ring)
  {
    InitialIsSound<T>(capacity);
  }

  /** try_pop can lose the wakeup too: the producer sleeps although the ring has room, no
      call is under way on the consumer side, and no thread can move. */
  lemma LostProducerWakeup<T>(capacity: nat, items: seq<T>, x: T) returns (steps: seq<Step<T>>)
    requires capacity >= 2 && |items| == capacity - 1
    ensures var s := Run(Initial<T>(capacity), steps);
            && !s.stop && Blocked(s.producer) && s.consumer.CIdle? && s.stopper.SIdle?
            && s.ring.accepted == items && s.ring.freed == 1 && Room(s.ring) && Quiet(s)
  {
    var s := Initial<T>(capacity);
    InitialUntouched<T>(capacity);
    var r;
    steps, r := Fill(s, [], s.ring, items);
    assert s.ring.accepted + items == items;
    FullRing(r);
    var p: Producer<T> := PHaveBoth(x, Locked, r.head, r.tail);
    steps := PushTests(s, steps, r, x);
    steps := TryPop(s, steps, r, p);
    var end := State(Shrunk(r), false, Free, PWaiting(x, false), CIdle, SIdle, 0, |r.accepted|);
    steps := Then(s, steps, ProducerHas(Shrunk(r), p, CIdle, 0, |r.accepted|), ProducerMoves, end);
  }
}
