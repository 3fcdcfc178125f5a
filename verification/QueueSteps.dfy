/** include/fileguard/event_queue.hpp with its threads interleaved: one producer, one
    consumer and a stopper, where every index read, slot access, index store, lock,
    unlock, wait and notification is a step of its own. Memory is sequentially
    consistent. Steps of a thread are deterministic; which thread moves is not. */
module QueueSteps {
  import opened Common
  import opened EventQueue

  // push and pop run under the mutex, try_push and try_pop do not.
  datatype Mode = Locked | Lockless

  datatype Producer<T> =
    | PIdle
    | PLocking(item: T)                               // push, or back from its wait
    | PChecking(item: T)                              // has the mutex, reads stop_ next
    | PReading(item: T, mode: Mode)                   // reads head_ next
    | PHaveHead(item: T, mode: Mode, h: nat)          // reads tail_ next
    | PHaveBoth(item: T, mode: Mode, h: nat, t: nat)  // decides whether the ring is full
    | PWaiting(item: T, woken: bool)                  // in cv_producer_.wait
    | PWriting(item: T, mode: Mode, h: nat)           // stores the slot next
    | PPublishing(item: T, mode: Mode, h: nat)        // stores head_ next
    | PUnlocking
    | PNotifying                                      // cv_consumer_.notify_one next
    | PRefused                                        // saw stop_, unlocks and returns

  datatype Consumer =
    | CIdle
    | CLocking
    | CChecking
    | CReading(final: bool, mode: Mode)               // final: the test after the wait
    | CHaveHead(final: bool, mode: Mode, h: nat)
    | CHaveBoth(final: bool, mode: Mode, h: nat, t: nat)
    | CWaiting(woken: bool)
    | CTaking(mode: Mode, t: nat)                     // moves the item out next
    | CPublishing(mode: Mode, t: nat)                 // stores tail_ next
    | CUnlocking
    | CNotifying
    | CDrained                                        // unlocks and returns false

  datatype Stopper = SIdle | SLocking | SSetting | SUnlocking | SNotifyingProducer | SNotifyingConsumer

  datatype Owner = Free | ByProducer | ByConsumer | ByStopper

  // The ring and its history: what was published and taken so far, and how often tail_
  // was stored.
  datatype Ring<T> = Ring(
    slots: seq<Option<T>>,
    head: nat,
    tail: nat,
    accepted: seq<T>,
    popped: seq<Option<T>>,
    freed: nat)
  {
    function Capacity(): nat {
      |slots|
    }
  }

  // seenTail and seenHead are history too: the counts behind the index last read.
  datatype State<T> = State(
    ring: Ring<T>,
    stop: bool,
    mutex: Owner,
    producer: Producer<T>,
    consumer: Consumer,
    stopper: Stopper,
    seenTail: nat,
    seenHead: nat)

  datatype Step<T> =
    | CallPush(item: T)
    | CallTryPush(item: T)
    | CallPop
    | CallTryPop
    | CallStop
    | ProducerMoves
    | ConsumerMoves
    | StopperMoves
    | SpuriousProducerWakeup
    | SpuriousConsumerWakeup

  predicate Enabled<T>(s: State<T>, step: Step<T>) {
    match step
    case CallPush(_) => s.producer.PIdle?
    case CallTryPush(_) => s.producer.PIdle?
    case CallPop => s.consumer.CIdle?
    case CallTryPop => s.consumer.CIdle?
    case CallStop => s.stopper.SIdle?
    case ProducerMoves =>
      !s.producer.PIdle? && (s.producer.PLocking? ==> s.mutex.Free?) && (s.producer.PWaiting? ==> s.producer.woken)
    case ConsumerMoves =>
      !s.consumer.CIdle? && (s.consumer.CLocking? ==> s.mutex.Free?) && (s.consumer.CWaiting? ==> s.consumer.woken)
    case StopperMoves => !s.stopper.SIdle? && (s.stopper.SLocking? ==> s.mutex.Free?)
    case SpuriousProducerWakeup => s.producer.PWaiting?
    case SpuriousConsumerWakeup => s.consumer.CWaiting?
  }

  function WakeProducer<T>(p: Producer<T>): Producer<T> {
    if p.PWaiting? then p.(woken := true) else p
  }

  function WakeConsumer(c: Consumer): Consumer {
    if c.CWaiting? then CWaiting(true) else c
  }

  // After storing an index: push and pop still have to unlock.
  function Stored<T>(mode: Mode): Producer<T> {
    if mode == Locked then PUnlocking else PNotifying
  }

  // The three stores and the move that touch the ring.
  function StoreSlot<T>(r: Ring<T>, h: nat, x: T): Ring<T> {
    if h < |r.slots| then r.(slots := r.slots[h := Some(x)]) else r
  }

  function StoreHead<T>(r: Ring<T>, h: nat, x: T): Ring<T>
    requires r.Capacity() > 0
  {
    r.(head := Next(h, r.Capacity()), accepted := r.accepted + [x])
  }

  function TakeSlot<T>(r: Ring<T>, t: nat): Ring<T> {
    if t < |r.slots| then r.(popped := r.popped + [r.slots[t]], slots := r.slots[t := None]) else r
  }

  function StoreTail<T>(r: Ring<T>, t: nat): Ring<T>
    requires r.Capacity() > 0
  {
    r.(tail := Next(t, r.Capacity()), freed := r.freed + 1)
  }

  function ProducerStep<T>(s: State<T>): State<T>
    requires s.ring.Capacity() > 0
  {
    match s.producer
    case PIdle => s
    case PLocking(x) => s.(mutex := ByProducer, producer := PChecking(x))
    case PChecking(x) => s.(producer := if s.stop then PRefused else PReading(x, Locked))
    case PReading(x, mode) => s.(producer := PHaveHead(x, mode, s.ring.head))
    case PHaveHead(x, mode, h) => s.(producer := PHaveBoth(x, mode, h, s.ring.tail), seenTail := s.ring.freed)
    case PHaveBoth(x, mode, h, t) =>
      if Next(h, s.ring.Capacity()) != t then s.(producer := PWriting(x, mode, h))
      else if mode == Locked then s.(mutex := Free, producer := PWaiting(x, false))
      else s.(producer := PIdle)
    case PWaiting(x, _) => s.(producer := PLocking(x))
    case PWriting(x, mode, h) => s.(ring := StoreSlot(s.ring, h, x), producer := PPublishing(x, mode, h))
    case PPublishing(x, mode, h) => s.(ring := StoreHead(s.ring, h, x), producer := Stored(mode))
    case PUnlocking => s.(mutex := Free, producer := PNotifying)
    case PNotifying => s.(consumer := WakeConsumer(s.consumer), producer := PIdle)
    case PRefused => s.(mutex := Free, producer := PIdle)
  }

  function ConsumerStep<T>(s: State<T>): State<T>
    requires s.ring.Capacity() > 0
  {
    match s.consumer
    case CIdle => s
    case CLocking => s.(mutex := ByConsumer, consumer := CChecking)
    case CChecking => s.(consumer := CReading(s.stop, Locked))
    case CReading(final, mode) => s.(consumer := CHaveHead(final, mode, s.ring.head), seenHead := |s.ring.accepted|)
    case CHaveHead(final, mode, h) => s.(consumer := CHaveBoth(final, mode, h, s.ring.tail))
    case CHaveBoth(final, mode, h, t) =>
      if !final && h == t then s.(mutex := Free, consumer := CWaiting(false))
      else if !final then s.(consumer := CReading(true, mode))
      else if h != t then s.(consumer := CTaking(mode, t))
      else if mode == Locked then s.(consumer := CDrained)
      else s.(consumer := CIdle)
    case CWaiting(_) => s.(consumer := CLocking)
    case CTaking(mode, t) => s.(ring := TakeSlot(s.ring, t), consumer := CPublishing(mode, t))
    case CPublishing(mode, t) =>
      s.(ring := StoreTail(s.ring, t), consumer := if mode == Locked then CUnlocking else CNotifying)
    case CUnlocking => s.(mutex := Free, consumer := CNotifying)
    case CNotifying => s.(producer := WakeProducer(s.producer), consumer := CIdle)
    case CDrained => s.(mutex := Free, consumer := CIdle)
  }

  function StopperStep<T>(s: State<T>): State<T> {
    match s.stopper
    case SIdle => s
    case SLocking => s.(mutex := ByStopper, stopper := SSetting)
    case SSetting => s.(stop := true, stopper := SUnlocking)
    case SUnlocking => s.(mutex := Free, stopper := SNotifyingProducer)
    case SNotifyingProducer => s.(producer := WakeProducer(s.producer), stopper := SNotifyingConsumer)
    case SNotifyingConsumer => s.(consumer := WakeConsumer(s.consumer), stopper := SIdle)
  }

  function Do<T>(s: State<T>, step: Step<T>): (s': State<T>)
    requires s.ring.Capacity() > 0
    ensures s'.ring.Capacity() == s.ring.Capacity()
  {
    match step
    case CallPush(x) => s.(producer := PLocking(x))
    case CallTryPush(x) => s.(producer := PReading(x, Lockless))
    case CallPop => s.(consumer := CLocking)
    case CallTryPop => s.(consumer := CReading(true, Lockless))
    case CallStop => s.(stopper := SLocking)
    case ProducerMoves => ProducerStep(s)
    case ConsumerMoves => ConsumerStep(s)
    case StopperMoves => StopperStep(s)
    case SpuriousProducerWakeup => s.(producer := WakeProducer(s.producer))
    case SpuriousConsumerWakeup => s.(consumer := WakeConsumer(s.consumer))
  }

  function Initial<T>(capacity: nat): State<T> {
    State(Ring(seq(capacity, _ => None), 0, 0, [], [], 0), false, Free, PIdle, CIdle, SIdle, 0, 0)
  }

  // ------------------------------------------------------------ ring positions

  // The slot of the n-th item ever.
  function Pos(n: nat, capacity: nat): (i: nat)
    requires capacity > 0
    ensures i < capacity
  {
    if n == 0 then 0 else Next(Pos(n - 1, capacity), capacity)
  }

  lemma {:induction false} PosOffset(n: nat, d: nat, capacity: nat)
    requires d < capacity
    ensures Pos(n + d, capacity) ==
            if Pos(n, capacity) + d < capacity then Pos(n, capacity) + d else Pos(n, capacity) + d - capacity
  {
    if d > 0 {
      PosOffset(n, d - 1, capacity);
    }
  }

  // Fewer than `capacity` items in a row sit in different slots.
  lemma PosDistinct(low: nat, high: nat, capacity: nat)
    requires 0 < capacity && low <= high < low + capacity
    ensures forall n :: low <= n < high ==> Pos(n, capacity) != Pos(high, capacity)
  {
    forall n | low <= n < high ensures Pos(n, capacity) != Pos(high, capacity) {
      PosOffset(n, high - n, capacity);
    }
  }

  // Equal positions within one lap are the same item, one lap apart at most.
  lemma PosLap(low: nat, high: nat, capacity: nat)
    requires 0 < capacity && low <= high <= low + capacity
    ensures Pos(low, capacity) == Pos(high, capacity) <==> high == low || high == low + capacity
  {
    if high < low + capacity {
      PosOffset(low, high - low, capacity);
    } else {
      PosOffset(low, capacity - 1, capacity);
    }
  }

  // ------------------------------------------------------------ the ring invariant

  ghost predicate RingShape<T>(r: Ring<T>) {
    var H, R, F, n := |r.accepted|, |r.popped|, r.freed, r.Capacity();
    && n >= 2
    && r.head == Pos(H, n) && r.tail == Pos(F, n)
    && F <= R <= F + 1 && R <= H < F + n
  }

  // Items not yet taken are in their slots.
  ghost predicate SlotsHold<T>(r: Ring<T>)
    requires r.Capacity() > 0
  {
    forall n :: |r.popped| <= n < |r.accepted| ==> r.slots[Pos(n, r.Capacity())] == Some(r.accepted[n])
  }

  // Items taken came out as they went in.
  ghost predicate InOrder<T>(r: Ring<T>) {
    |r.popped| <= |r.accepted| && forall n :: 0 <= n < |r.popped| ==> r.popped[n] == Some(r.accepted[n])
  }

  ghost predicate GoodRing<T>(r: Ring<T>) {
    RingShape(r) && SlotsHold(r) && InOrder(r)
  }

  ghost predicate Room<T>(r: Ring<T>) {
    |r.accepted| + 1 < r.freed + r.Capacity()
  }

  // What the producer's registers say about the ring.
  ghost predicate ProducerKnows<T>(s: State<T>)
    requires s.ring.Capacity() > 0
  {
    var r := s.ring;
    match s.producer
    case PHaveHead(_, _, h) => h == r.head
    case PHaveBoth(_, _, h, t) =>
      && h == r.head && t == Pos(s.seenTail, r.Capacity())
      && s.seenTail <= r.freed && |r.accepted| < s.seenTail + r.Capacity()
    case PWriting(_, _, h) => h == r.head && Room(r)
    case PPublishing(x, _, h) => h == r.head && Room(r) && h < |r.slots| && r.slots[h] == Some(x)
    case _ => true
  }

  ghost predicate ConsumerKnows<T>(s: State<T>)
    requires s.ring.Capacity() > 0
  {
    var r := s.ring;
    && (|r.popped| == r.freed + 1 <==> s.consumer.CPublishing?)
    && match s.consumer
       case CHaveHead(_, _, h) => r.freed <= s.seenHead <= |r.accepted| && h == Pos(s.seenHead, r.Capacity())
       case CHaveBoth(_, _, h, t) =>
         r.freed <= s.seenHead <= |r.accepted| && h == Pos(s.seenHead, r.Capacity()) && t == r.tail
       case CTaking(_, t) => t == r.tail && r.freed < |r.accepted|
       case CPublishing(_, t) => t == r.tail
       case _ => true
  }

  ghost predicate RingOk<T>(s: State<T>) {
    GoodRing(s.ring) && ProducerKnows(s) && ConsumerKnows(s)
  }

  lemma StoreSlotOk<T>(r: Ring<T>, x: T)
    requires GoodRing(r) && Room(r)
    ensures GoodRing(StoreSlot(r, r.head, x))
    ensures |r.popped| == r.freed && r.freed < |r.accepted| ==> r.head != r.tail
  {
    PosDistinct(r.freed, |r.accepted|, r.Capacity());
  }

  lemma StoreHeadOk<T>(r: Ring<T>, x: T)
    requires GoodRing(r) && Room(r) && r.slots[r.head] == Some(x)
    ensures GoodRing(StoreHead(r, r.head, x))
  {
    assert Pos(|r.accepted| + 1, r.Capacity()) == Next(r.head, r.Capacity());
  }

  lemma TakeSlotOk<T>(r: Ring<T>)
    requires GoodRing(r) && |r.popped| == r.freed < |r.accepted|
    ensures GoodRing(TakeSlot(r, r.tail))
    ensures r.head != r.tail
  {
    forall n | r.freed < n < |r.accepted| ensures Pos(n, r.Capacity()) != r.tail {
      PosDistinct(r.freed, n, r.Capacity());
    }
    assert r.slots[r.tail] == Some(r.accepted[r.freed]);
    PosDistinct(r.freed, |r.accepted|, r.Capacity());
  }

  lemma StoreTailOk<T>(r: Ring<T>)
    requires GoodRing(r) && |r.popped| == r.freed + 1
    ensures GoodRing(StoreTail(r, r.tail))
  {
    assert Pos(r.freed + 1, r.Capacity()) == Next(r.tail, r.Capacity());
  }

  lemma ProducerKeepsRing<T>(s: State<T>)
    requires RingOk(s)
    ensures GoodRing(ProducerStep(s).ring)
  {
    if s.producer.PWriting? {
      StoreSlotOk(s.ring, s.producer.item);
    } else if s.producer.PPublishing? {
      StoreHeadOk(s.ring, s.producer.item);
    } else {
      assert ProducerStep(s).ring == s.ring;
    }
  }

  lemma ProducerKnowsOwnStep<T>(s: State<T>)
    requires RingShape(s.ring) && ProducerKnows(s)
    ensures ProducerKnows(ProducerStep(s))
  {
    if s.producer.PHaveBoth? {
      PosLap(s.seenTail, |s.ring.accepted| + 1, s.ring.Capacity());
    }
  }

  lemma ConsumerKnowsProducerStep<T>(s: State<T>)
    requires RingShape(s.ring) && ConsumerKnows(s)
    ensures ConsumerKnows(ProducerStep(s))
  {
  }

  lemma ConsumerKeepsRing<T>(s: State<T>)
    requires RingOk(s)
    ensures GoodRing(ConsumerStep(s).ring)
  {
    if s.consumer.CTaking? {
      TakeSlotOk(s.ring);
    } else if s.consumer.CPublishing? {
      StoreTailOk(s.ring);
    } else {
      assert ConsumerStep(s).ring == s.ring;
    }
  }

  lemma ConsumerKnowsOwnStep<T>(s: State<T>)
    requires RingShape(s.ring) && ConsumerKnows(s)
    ensures ConsumerKnows(ConsumerStep(s))
  {
    if s.consumer.CHaveBoth? {
      PosLap(s.ring.freed, s.seenHead, s.ring.Capacity());
    }
  }

  lemma ProducerKnowsConsumerStep<T>(s: State<T>)
    requires RingOk(s)
    ensures ProducerKnows(ConsumerStep(s))
  {
    if s.consumer.CTaking? {
      TakeSlotOk(s.ring);
    }
  }

  lemma RingStep<T>(s: State<T>, step: Step<T>)
    requires RingOk(s) && Enabled(s, step)
    ensures RingOk(Do(s, step))
  {
    if step.ProducerMoves? {
      ProducerKeepsRing(s);
      ProducerKnowsOwnStep(s);
      ConsumerKnowsProducerStep(s);
    } else if step.ConsumerMoves? {
      ConsumerKeepsRing(s);
      ConsumerKnowsOwnStep(s);
      ProducerKnowsConsumerStep(s);
    } else {
      assert Do(s, step).ring == s.ring;
    }
  }
}
