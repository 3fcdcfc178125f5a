/** src/daemon.cpp, SocketStreamClient: one subscriber with a bounded queue of its own. */
module StreamClient {
  import opened Common
  import opened EventQueue

  const CLIENT_CAPACITY: nat := 1024

  ghost predicate Subsequence<E>(a: seq<E>, b: seq<E>) {
    if a == [] then true
    else if b == [] then false
    else if Last(a) == Last(b) && Subsequence(a[..|a| - 1], b[..|b| - 1]) then true
    else Subsequence(a, b[..|b| - 1])
  }

  lemma SubsequenceSkip<E>(a: seq<E>, b: seq<E>, x: E)
    requires Subsequence(a, b)
    ensures Subsequence(a, b + [x])
  {
    assert (b + [x])[..|b|] == b;
  }

  lemma SubsequenceTake<E>(a: seq<E>, b: seq<E>, x: E)
    requires Subsequence(a, b)
    ensures Subsequence(a + [x], b + [x])
  {
    assert (a + [x])[..|a|] == a && (b + [x])[..|b|] == b;
  }

  /** Order is kept: a subsequence is picked out by increasing positions. */
  lemma {:induction false} SubsequencePositions<E>(a: seq<E>, b: seq<E>) returns (at: seq<nat>)
    requires Subsequence(a, b)
    ensures |at| == |a|
    ensures forall i :: 0 <= i < |at| ==> at[i] < |b| && b[at[i]] == a[i]
    ensures forall i, j :: 0 <= i < j < |at| ==> at[i] < at[j]
    decreases |b|
  {
    if a == [] {
      at := [];
    } else if Last(a) == Last(b) && Subsequence(a[..|a| - 1], b[..|b| - 1]) {
      var front := SubsequencePositions(a[..|a| - 1], b[..|b| - 1]);
      at := front + [|b| - 1];
    } else {
      at := SubsequencePositions(a, b[..|b| - 1]);
    }
  }

  // start: how many events had been fanned out when the client subscribed. offered: the
  // events pushed while it was open; accepted: those that found room; taken: what its
  // writer popped.
  datatype Client<E> = Client(
    queue: Queue<E>,
    closed: bool,
    dropped: nat,
    start: nat,
    offered: seq<E>,
    accepted: seq<E>,
    taken: seq<E>)

  function NewClient<E>(start: nat): Client<E> {
    Client(Queue([], CLIENT_CAPACITY, false), false, 0, start, [], [], [])
  }

  // push past its test of closed_: try_push, counting what does not fit.
  function TryOffer<E>(c: Client<E>, e: E): Client<E> {
    var (q, r) := TryPushSpec(c.queue, e);
    if r == Accepted then c.(queue := q, offered := c.offered + [e], accepted := c.accepted + [e])
    else c.(dropped := c.dropped + 1, offered := c.offered + [e])
  }

  /** push, with no other thread in between: nothing once closed. */
  function Offer<E>(c: Client<E>, e: E): Client<E> {
    if c.closed then c else TryOffer(c, e)
  }

  // One pop of the writer thread, which takes effect when it releases the slot.
  function Take<E>(c: Client<E>): Client<E> {
    var (q, r) := PopSpec(c.queue);
    match r
    case Item(e) => c.(queue := q, taken := c.taken + [e])
    case _ => c
  }

  // shutdown stops the queue too; a writer giving up on its socket only sets the flag.
  function Close<E>(c: Client<E>, shutdown: bool): Client<E> {
    c.(closed := true, queue := c.queue.(stopped := c.queue.stopped || shutdown))
  }

  /** Nothing offered is unaccounted for and nothing is reordered. */
  ghost predicate Conserved<E>(c: Client<E>) {
    && |c.offered| == |c.accepted| + c.dropped
    && c.accepted == c.taken + c.queue.items
    && Subsequence(c.accepted, c.offered)
    && |c.queue.items| < CLIENT_CAPACITY == c.queue.capacity
  }

  lemma NewConserved<E>(start: nat)
    ensures Conserved(NewClient<E>(start))
    ensures NewClient<E>(start) == Client(Queue([], 1024, false), false, 0, start, [], [], [])
  {
  }

  lemma OfferConserves<E>(c: Client<E>, e: E)
    requires Conserved(c)
    ensures Conserved(TryOffer(c, e))
    // An offer is dropped exactly when no slot of the queue has been released for it.
    ensures TryOffer(c, e).dropped == c.dropped + (if c.queue.Full() then 1 else 0)
    ensures TryOffer(c, e).accepted == c.accepted + (if c.queue.Full() then [] else [e])
    ensures TryOffer(c, e).offered == c.offered + [e]
    ensures TryOffer(c, e).taken == c.taken && TryOffer(c, e).closed == c.closed
    ensures c.closed ==> Offer(c, e) == c
    ensures !c.closed ==> Offer(c, e) == TryOffer(c, e)
  {
    SubsequenceSkip(c.accepted, c.offered, e);
    SubsequenceTake(c.accepted, c.offered, e);
  }

  lemma TakeConserves<E>(c: Client<E>)
    requires Conserved(c)
    ensures Conserved(Take(c))
    ensures Take(c).taken <= Take(c).accepted == c.accepted
  {
    if c.queue.items != [] {
      assert c.queue.items == [c.queue.items[0]] + c.queue.items[1..];
    }
  }

  // n pops of the writer in a row.
  function TakeTimes<E>(c: Client<E>, n: nat): Client<E>
    decreases n
  {
    if n == 0 then c else TakeTimes(Take(c), n - 1)
  }

  lemma {:induction false} TakesAll<E>(c: Client<E>)
    requires Conserved(c)
    ensures var d := TakeTimes(c, |c.queue.items|); d.taken == d.accepted == c.accepted
    decreases |c.queue.items|
  {
    if c.queue.items == [] {
      assert c.taken + [] == c.taken;
    } else {
      TakeConserves(c);
      TakesAll(Take(c));
    }
  }

  lemma CloseConserves<E>(c: Client<E>, shutdown: bool)
    requires Conserved(c)
    ensures Conserved(Close(c, shutdown))
    // Closed for good; only a shutdown also lets a waiting writer go.
    ensures Close(c, shutdown).closed
    ensures Close(c, shutdown).queue == c.queue.(stopped := if shutdown then true else c.queue.stopped)
  {
  }
}
