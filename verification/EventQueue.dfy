/** include/fileguard/event_queue.hpp: the bounded ring queue, one call at a time. What
    happens when calls overlap is the subject of QueueSteps. */
module EventQueue {
  import opened Common

  // ------------------------------------------------------------ what a queue does

  /** A bounded first-in first-out queue that can be stopped. */
  datatype Queue<T> = Queue(items: seq<T>, capacity: nat, stopped: bool) {
    // One slot of the ring stays empty.
    predicate Full() {
      |items| + 1 >= capacity
    }
  }

  datatype PushResult = Accepted | Refused | WouldBlock
  datatype PopResult<+T> = Item(value: T) | Nothing | WaitsForItem

  function PushSpec<T>(q: Queue<T>, x: T): (Queue<T>, PushResult) {
    if q.stopped then (q, Refused)
    else if q.Full() then (q, WouldBlock)
    else (q.(items := q.items + [x]), Accepted)
  }

  function TryPushSpec<T>(q: Queue<T>, x: T): (Queue<T>, PushResult) {
    if q.Full() then (q, Refused) else (q.(items := q.items + [x]), Accepted)
  }

  function PopSpec<T>(q: Queue<T>): (Queue<T>, PopResult<T>) {
    if q.items != [] then (q.(items := q.items[1..]), Item(q.items[0]))
    else (q, if q.stopped then Nothing else WaitsForItem)
  }

  function TryPopSpec<T>(q: Queue<T>): (Queue<T>, PopResult<T>) {
    if q.items != [] then (q.(items := q.items[1..]), Item(q.items[0])) else (q, Nothing)
  }

  // ------------------------------------------------------------ the ring

  // The successor of an index. The source writes (i + 1) % size, which is the same on
  // every index of the ring.
  function Next(i: nat, size: nat): nat {
    if i + 1 == size then 0 else i + 1
  }

  lemma NextIsModulo(i: nat, size: nat)
    requires i < size
    ensures Next(i, size) == (i + 1) % size
  {
  }

  // The elements from tail up to head, wrapping around.
  function Between<T>(slots: seq<T>, head: nat, tail: nat): seq<T>
    requires head < |slots| && tail < |slots|
  {
    if tail <= head then slots[tail..head] else slots[tail..] + slots[..head]
  }

  lemma BetweenAppend<T>(slots: seq<T>, head: nat, tail: nat, x: T)
    requires head < |slots| && tail < |slots| && Next(head, |slots|) != tail
    ensures Between(slots[head := x], Next(head, |slots|), tail) == Between(slots, head, tail) + [x]
  {
    var after := slots[head := x];
    if tail <= head {
      assert after[tail..head] == slots[tail..head];
      if head + 1 < |slots| {
        assert after[tail..head + 1] == after[tail..head] + [x];
      } else {
        assert after[tail..] + after[..0] == after[tail..head] + [x];
      }
    } else {
      assert after[tail..] == slots[tail..];
      assert after[..head + 1] == slots[..head] + [x];
      assert after[tail..] + after[..head + 1] == slots[tail..] + slots[..head] + [x];
    }
  }

  lemma BetweenRemove<T>(slots: seq<T>, head: nat, tail: nat)
    requires head < |slots| && tail < |slots| && head != tail
    ensures Between(slots, head, tail) == [slots[tail]] + Between(slots, head, Next(tail, |slots|))
  {
    if tail < head {
      assert slots[tail..head] == [slots[tail]] + slots[tail + 1..head];
    } else {
      assert slots[tail..] == [slots[tail]] + slots[tail + 1..];
      if tail + 1 < |slots| {
        assert slots[tail..] + slots[..head] == [slots[tail]] + (slots[tail + 1..] + slots[..head]);
      } else {
        assert slots[tail..] + slots[..head] == [slots[tail]] + slots[0..head];
      }
    }
  }

  lemma BetweenFull<T>(slots: seq<T>, head: nat, tail: nat)
    requires head < |slots| && tail < |slots|
    ensures Next(head, |slots|) == tail <==> |Between(slots, head, tail)| + 1 == |slots|
    ensures head == tail <==> Between(slots, head, tail) == []
  {
    assert |Between(slots, head, tail)| == if tail <= head then head - tail else |slots| - tail + head;
  }

  class SpscQueue<T(0)> {
    const slots: array<T>
    var head: nat
    var tail: nat
    var stop: bool

    ghost predicate Valid()
      reads this
    {
      slots.Length >= 2 && head < slots.Length && tail < slots.Length
    }

    /** What the ring represents. */
    ghost function Model(): (q: Queue<T>)
      requires Valid()
      reads this, slots
    {
      Queue(Between(slots[..], head, tail), slots.Length, stop)
    }

    // The constructor throws below capacity 2; Create reports that.
    constructor (capacity: nat)
      requires capacity >= 2
      ensures Valid() && fresh(slots) && Model() == Queue([], capacity, false)
    {
      slots := new T[capacity];
      head, tail, stop := 0, 0, false;
    }

    static method Create(capacity: nat) returns (q: SpscQueue?<T>)
      ensures q != null <==> capacity >= 2
      ensures q != null ==> fresh(q) && fresh(q.slots) && q.Valid() && q.Model() == Queue([], capacity, false)
    {
      if capacity < 2 {
        return null;
      }
      q := new SpscQueue(capacity);
    }

    /** push. WouldBlock stands for a wait that nothing in this thread can end. */
    method Push(item: T) returns (r: PushResult)
      requires Valid()
      modifies this`head, slots
      ensures Valid() && (Model(), r) == PushSpec(old(Model()), item)
    {
      BetweenFull(slots[..], head, tail);
      if stop {
        return Refused;
      }
      if Next(head, slots.Length) == tail {
        return WouldBlock;
      }
      BetweenAppend(slots[..], head, tail, item);
      slots[head] := item;
      head := Next(head, slots.Length);
      return Accepted;
    }

    method TryPush(item: T) returns (r: PushResult)
      requires Valid()
      modifies this`head, slots
      ensures Valid() && (Model(), r) == TryPushSpec(old(Model()), item)
    {
      BetweenFull(slots[..], head, tail);
      var h, t := head, tail;
      if Next(h, slots.Length) == t {
        return Refused;
      }
      BetweenAppend(slots[..], h, t, item);
      slots[h] := item;
      head := Next(h, slots.Length);
      return Accepted;
    }

    /** pop. WaitsForItem stands for a wait that nothing in this thread can end. */
    method Pop() returns (r: PopResult<T>)
      requires Valid()
      modifies this`tail
      ensures Valid() && (Model(), r) == PopSpec(old(Model()))
    {
      BetweenFull(slots[..], head, tail);
      if !stop && head == tail {
        return WaitsForItem;
      }
      if head == tail {
        return Nothing;
      }
      BetweenRemove(slots[..], head, tail);
      var out := slots[tail];
      tail := Next(tail, slots.Length);
      return Item(out);
    }

    method TryPop() returns (r: PopResult<T>)
      requires Valid()
      modifies this`tail
      ensures Valid() && (Model(), r) == TryPopSpec(old(Model()))
    {
      BetweenFull(slots[..], head, tail);
      var h, t := head, tail;
      if h == t {
        return Nothing;
      }
      BetweenRemove(slots[..], h, t);
      var out := slots[t];
      tail := Next(t, slots.Length);
      return Item(out);
    }

    method RequestStop()
      requires Valid()
      modifies this`stop
      ensures Valid() && Model() == old(Model()).(stopped := true)
    {
      stop := true;
    }
  }
}
