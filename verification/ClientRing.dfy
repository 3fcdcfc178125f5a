/** src/daemon.cpp: the subscriber of StreamClient over the interleaved ring, its producer
    being the fan-out thread and its consumer the writer thread. */
module ClientOnRing {
  import opened Common
  import opened EventQueue
  import opened QueueSteps
  import opened QueueGuarantees
  import opened QueueLinearizability
  import opened StreamClient

  // What an act on its queue means for an open subscriber.
  function FollowOne<E>(c: Client<E>, act: Act<E>): Client<E> {
    match act
    case Pushed(x) => Offer(c, x)
    case TryPushed(x) => Offer(c, x)
    case TryPushRefused(x) => Offer(c, x)
    case Popped(_) => Take(c)
    case TryPopped(_) => Take(c)
    case Stopped => c.(queue := c.queue.(stopped := true))
    case _ => c
  }

  function Follow<E>(c: Client<E>, acts: seq<Act<E>>): Client<E>
    decreases |acts|
  {
    if acts == [] then c else Follow(FollowOne(c, acts[0]), acts[1..])
  }

  // Refused try_push calls.
  function Refusals<E>(acts: seq<Act<E>>): nat {
    if acts == [] then 0 else (if acts[0].TryPushRefused? then 1 else 0) + Refusals(acts[1..])
  }

  lemma FollowOneMatches<E>(c: Client<E>, act: Act<E>)
    requires !c.closed && Conserved(c) && Apply(c.queue, act).Some?
    ensures var c' := FollowOne(c, act);
            && !c'.closed && Conserved(c')
            && c'.queue == Apply(c.queue, act).value
            && c'.dropped == c.dropped + (if act.TryPushRefused? then 1 else 0)
            && c'.accepted == c.accepted + (if act.Pushed? || act.TryPushed? then [act.item] else [])
            && c'.taken == c.taken + (if act.Popped? || act.TryPopped? then [act.item] else [])
  {
    match act
    case Pushed(x) => OfferConserves(c, x);
    case TryPushed(x) => OfferConserves(c, x);
    case TryPushRefused(x) => OfferConserves(c, x);
    case Popped(_) => TakeConserves(c);
    case TryPopped(_) => TakeConserves(c);
    case _ =>
  }

  lemma {:induction false} FollowMatches<E>(c: Client<E>, acts: seq<Act<E>>)
    requires !c.closed && Conserved(c) && Replay(c.queue, acts).Some?
    ensures var c' := Follow(c, acts);
            && Conserved(c')
            && c'.queue == Replay(c.queue, acts).value
            && c'.dropped == c.dropped + Refusals(acts)
    decreases |acts|
  {
    if acts != [] {
      FollowOneMatches(c, acts[0]);
      FollowMatches(FollowOne(c, acts[0]), acts[1..]);
    }
  }

  /** Every interleaving of a subscriber's producer, writer and stopper on the ring is a run
      of the subscriber of StreamClient: same queue, one drop for each refused try_push,
      and everything offered accounted for. */
  lemma ClientRefinesRing<E>(start: nat, steps: seq<Step<E>>)
    ensures var s := Run(Initial<E>(CLIENT_CAPACITY), steps);
            var acts := Acts(Initial<E>(CLIENT_CAPACITY), steps);
            var c := Follow(NewClient<E>(start), acts);
            && s.ring.freed <= |s.ring.accepted|
            && c.queue == Abstract(s)
            && c.dropped == Refusals(acts)
            && Conserved(c)
  {
    Linearizable<E>(CLIENT_CAPACITY, steps);
    NewConserved<E>(start);
    FollowMatches(NewClient<E>(start), Acts(Initial<E>(CLIENT_CAPACITY), steps));
  }
}
