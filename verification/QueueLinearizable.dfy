/** Every interleaving of QueueSteps behaves like the queue of EventQueue: each call takes
    effect at one of its own steps and returns what the queue answers there. */
module QueueLinearizability {
  import opened Common
  import opened EventQueue
  import opened QueueSteps
  import opened QueueGuarantees

  // ------------------------------------------------------------ the abstract queue

  /** The queue a state of the ring stands for. An item leaves it when its slot is
      released, not when it is read: until then try_push finds the ring full. */
  function Abstract<T>(s: State<T>): Queue<T>
    requires s.ring.freed <= |s.ring.accepted|
  {
    Queue(s.ring.accepted[s.ring.freed..], s.ring.Capacity(), s.stop)
  }

  // A call taking effect, with its answer.
  datatype Act<T> =
    | Pushed(item: T)
    | PushRefused(item: T)
    | TryPushed(item: T)
    | TryPushRefused(item: T)
    | Popped(item: T)
    | TryPopped(item: T)
    | PopEnded
    | TryPopEmpty
    | Stopped

  // The queue after an act, if the act's answer is the one the queue gives.
  ghost function Apply<T>(q: Queue<T>, act: Act<T>): Option<Queue<T>> {
    match act
    case Pushed(x) => if PushSpec(q, x).1 == Accepted then Some(PushSpec(q, x).0) else None
    case PushRefused(x) => if PushSpec(q, x) == (q, Refused) then Some(q) else None
    case TryPushed(x) => if TryPushSpec(q, x).1 == Accepted then Some(TryPushSpec(q, x).0) else None
    case TryPushRefused(x) => if TryPushSpec(q, x) == (q, Refused) then Some(q) else None
    case Popped(v) => if PopSpec(q).1 == Item(v) then Some(PopSpec(q).0) else None
    case TryPopped(v) => if TryPopSpec(q).1 == Item(v) then Some(TryPopSpec(q).0) else None
    case PopEnded => if PopSpec(q) == (q, Nothing) then Some(q) else None
    case TryPopEmpty => if TryPopSpec(q) == (q, Nothing) then Some(q) else None
    case Stopped => Some(q.(stopped := true))
  }

  ghost function Replay<T>(q: Queue<T>, acts: seq<Act<T>>): Option<Queue<T>>
    decreases |acts|
  {
    if acts == [] then Some(q)
    else
      match Apply(q, acts[0])
      case None => None
      case Some(q') => Replay(q', acts[1..])
  }

  // ------------------------------------------------------------ where calls take effect

  // push and try_push: at the store of head_ when accepted, otherwise at the read of
  // stop_ or of tail_ that decides.
  function ProducerEffect<T>(s: State<T>): Option<Act<T>>
    requires s.ring.Capacity() > 0
  {
    match s.producer
    case PChecking(x) => if s.stop then Some(PushRefused(x)) else None
    case PHaveHead(x, mode, h) =>
      if mode == Mode.Lockless && Next(h, s.ring.Capacity()) == s.ring.tail then Some(TryPushRefused(x)) else None
    case PPublishing(x, mode, _) => Some(if mode == Locked then Pushed(x) else TryPushed(x))
    case _ => None
  }

  // pop and try_pop: at the store of tail_ when there is an item, otherwise at the read of
  // head_ that decides.
  function ConsumerEffect<T>(s: State<T>): Option<Act<T>> {
    match s.consumer
    case CReading(final, mode) =>
      if final && s.ring.head == s.ring.tail then Some(if mode == Locked then PopEnded else TryPopEmpty) else None
    case CPublishing(mode, _) =>
      if s.ring.popped == [] || Last(s.ring.popped).None? then None
      else Some(if mode == Locked then Popped(Last(s.ring.popped).value) else TryPopped(Last(s.ring.popped).value))
    case _ => None
  }

  function Effect<T>(s: State<T>, step: Step<T>): Option<Act<T>>
    requires s.ring.Capacity() > 0
  {
    match step
    case ProducerMoves => ProducerEffect(s)
    case ConsumerMoves => ConsumerEffect(s)
    case StopperMoves => if s.stopper.SSetting? then Some(Stopped) else None
    case _ => None
  }

  ghost function ApplyEffect<T>(q: Queue<T>, effect: Option<Act<T>>): Option<Queue<T>> {
    if effect.Some? then Apply(q, effect.value) else Some(q)
  }

  lemma TailAppend<T>(all: seq<T>, from: nat, x: T)
    requires from <= |all|
    ensures (all + [x])[from..] == all[from..] + [x]
  {
  }

  lemma ProducerEffectApplies<T>(s: State<T>)
    requires Base(s)
    ensures s.ring.freed <= |s.ring.accepted| && ProducerStep(s).ring.freed <= |ProducerStep(s).ring.accepted|
    ensures ApplyEffect(Abstract(s), ProducerEffect(s)) == Some(Abstract(ProducerStep(s)))
  {
    if s.producer.PPublishing? {
      TailAppend(s.ring.accepted, s.ring.freed, s.producer.item);
    } else if s.producer.PHaveHead? {
      PosLap(s.ring.freed, |s.ring.accepted| + 1, s.ring.Capacity());
    }
  }

  lemma ReleaseApplies<T>(s: State<T>)
    requires Base(s) && s.consumer.CPublishing?
    ensures s.ring.freed < |s.ring.accepted|
    ensures ApplyEffect(Abstract(s), ConsumerEffect(s)) == Some(Abstract(ConsumerStep(s)))
  {
    assert Last(s.ring.popped) == Some(s.ring.accepted[s.ring.freed]);
    assert s.ring.accepted[s.ring.freed + 1..] == s.ring.accepted[s.ring.freed..][1..];
  }

  lemma ConsumerEffectApplies<T>(s: State<T>)
    requires Base(s)
    ensures s.ring.freed <= |s.ring.accepted| && ConsumerStep(s).ring.freed <= |ConsumerStep(s).ring.accepted|
    ensures ApplyEffect(Abstract(s), ConsumerEffect(s)) == Some(Abstract(ConsumerStep(s)))
  {
    if s.consumer.CPublishing? {
      ReleaseApplies(s);
    } else if s.consumer.CReading? {
      PosLap(s.ring.freed, |s.ring.accepted|, s.ring.Capacity());
    }
  }

  /** Every step is the effect of at most one call, with the answer the queue gives at that
      instant, or leaves the queue alone. */
  lemma StepsRefineQueue<T>(s: State<T>, step: Step<T>)
    requires Base(s) && Enabled(s, step)
    ensures s.ring.freed <= |s.ring.accepted| && Do(s, step).ring.freed <= |Do(s, step).ring.accepted|
    ensures ApplyEffect(Abstract(s), Effect(s, step)) == Some(Abstract(Do(s, step)))
  {
    if step.ProducerMoves? {
      ProducerEffectApplies(s);
    } else if step.ConsumerMoves? {
      ConsumerEffectApplies(s);
    }
  }

  // ------------------------------------------------------------ what calls return

  // What an act answers the producer: true for an item accepted.
  function ProducerAnswer<T>(effect: Option<Act<T>>): Option<bool> {
    match effect
    case Some(Pushed(_)) => Some(true)
    case Some(TryPushed(_)) => Some(true)
    case Some(PushRefused(_)) => Some(false)
    case Some(TryPushRefused(_)) => Some(false)
    case _ => None
  }

  // What an act answers the consumer: None where the call returns false.
  function ConsumerAnswer<T>(effect: Option<Act<T>>): Option<Option<T>> {
    match effect
    case Some(Popped(v)) => Some(Some(v))
    case Some(TryPopped(v)) => Some(Some(v))
    case Some(PopEnded) => Some(None)
    case Some(TryPopEmpty) => Some(None)
    case _ => None
  }

  // What the producer's call returns, if this step ends it.
  function ProducerReturns<T>(s: State<T>, step: Step<T>): Option<bool>
    requires s.ring.Capacity() > 0
  {
    if !step.ProducerMoves? then None
    else
      match s.producer
      case PHaveBoth(_, mode, h, t) =>
        if mode == Mode.Lockless && Next(h, s.ring.Capacity()) == t then Some(false) else None
      case PNotifying => Some(true)
      case PRefused => Some(false)
      case _ => None
  }

  function ConsumerReturns<T>(s: State<T>, step: Step<T>): Option<Option<T>> {
    if !step.ConsumerMoves? then None
    else
      match s.consumer
      case CHaveBoth(final, mode, h, t) => if final && mode == Mode.Lockless && h == t then Some(None) else None
      case CNotifying => if s.ring.popped != [] then Some(Last(s.ring.popped)) else None
      case CDrained => Some(None)
      case _ => None
  }

  // The answer of a call that took effect and has not returned yet.
  function ProducerOwes<T>(s: State<T>): Option<bool>
    requires s.ring.Capacity() > 0
  {
    match s.producer
    case PHaveBoth(_, mode, h, t) =>
      if mode == Mode.Lockless && Next(h, s.ring.Capacity()) == t then Some(false) else None
    case PUnlocking => Some(true)
    case PNotifying => Some(true)
    case PRefused => Some(false)
    case _ => None
  }

  function ConsumerOwes<T>(s: State<T>): Option<Option<T>> {
    match s.consumer
    case CHaveHead(final, _, h) => if final && h == s.ring.tail then Some(None) else None
    case CHaveBoth(final, _, h, t) => if final && h == t then Some(None) else None
    case CUnlocking => if s.ring.popped != [] then Some(Last(s.ring.popped)) else None
    case CNotifying => if s.ring.popped != [] then Some(Last(s.ring.popped)) else None
    case CDrained => Some(None)
    case _ => None
  }

  // An answer owed or just decided is returned or still owed; there is never a second one.
  ghost predicate Settles<A>(owed: Option<A>, decided: Option<A>, returned: Option<A>, owed': Option<A>) {
    && (owed.None? || decided.None?)
    && (returned.None? || owed'.None?)
    && (if owed.Some? then owed else decided) == (if returned.Some? then returned else owed')
  }

  // The item a pop is about to release.
  predicate HasTaken<T>(s: State<T>) {
    s.consumer.CPublishing? ==> s.ring.popped != [] && Last(s.ring.popped).Some?
  }

  lemma BaseHasTaken<T>(s: State<T>)
    requires Base(s)
    ensures HasTaken(s)
  {
    if s.consumer.CPublishing? {
      assert Last(s.ring.popped) == Some(s.ring.accepted[s.ring.freed]);
    }
  }

  lemma ProducerSettles<T>(s: State<T>, step: Step<T>)
    requires s.ring.Capacity() > 0 && Enabled(s, step)
    ensures Settles(ProducerOwes(s), ProducerAnswer(Effect(s, step)), ProducerReturns(s, step), ProducerOwes(Do(s, step)))
  {
  }

  lemma ConsumerSettles<T>(s: State<T>, step: Step<T>)
    requires s.ring.Capacity() > 0 && Enabled(s, step) && HasTaken(s)
    ensures Settles(ConsumerOwes(s), ConsumerAnswer(Effect(s, step)), ConsumerReturns(s, step), ConsumerOwes(Do(s, step)))
  {
  }

  // ------------------------------------------------------------ whole runs

  function WithEffect<T>(effect: Option<Act<T>>, rest: seq<Act<T>>): seq<Act<T>> {
    if effect.Some? then [effect.value] + rest else rest
  }

  function Acts<T>(s: State<T>, steps: seq<Step<T>>): seq<Act<T>>
    requires s.ring.Capacity() > 0
    decreases |steps|
  {
    if |steps| == 0 then []
    else if Enabled(s, steps[0]) then WithEffect(Effect(s, steps[0]), Acts(Do(s, steps[0]), steps[1..]))
    else Acts(s, steps[1..])
  }

  function AsSeq<A>(o: Option<A>): seq<A> {
    if o.Some? then [o.value] else []
  }

  function ProducerAnswers<T>(acts: seq<Act<T>>): seq<bool> {
    if acts == [] then [] else AsSeq(ProducerAnswer(Some(acts[0]))) + ProducerAnswers(acts[1..])
  }

  function ConsumerAnswers<T>(acts: seq<Act<T>>): seq<Option<T>> {
    if acts == [] then [] else AsSeq(ConsumerAnswer(Some(acts[0]))) + ConsumerAnswers(acts[1..])
  }

  function AllProducerReturns<T>(s: State<T>, steps: seq<Step<T>>): seq<bool>
    requires s.ring.Capacity() > 0
    decreases |steps|
  {
    if |steps| == 0 then []
    else if Enabled(s, steps[0]) then AsSeq(ProducerReturns(s, steps[0])) + AllProducerReturns(Do(s, steps[0]), steps[1..])
    else AllProducerReturns(s, steps[1..])
  }

  function AllConsumerReturns<T>(s: State<T>, steps: seq<Step<T>>): seq<Option<T>>
    requires s.ring.Capacity() > 0
    decreases |steps|
  {
    if |steps| == 0 then []
    else if Enabled(s, steps[0]) then AsSeq(ConsumerReturns(s, steps[0])) + AllConsumerReturns(Do(s, steps[0]), steps[1..])
    else AllConsumerReturns(s, steps[1..])
  }

  lemma ReplayThen<T>(q: Queue<T>, effect: Option<Act<T>>, rest: seq<Act<T>>)
    requires ApplyEffect(q, effect).Some?
    ensures Replay(q, WithEffect(effect, rest)) == Replay(ApplyEffect(q, effect).value, rest)
  {
    if effect.Some? {
      assert ([effect.value] + rest)[1..] == rest;
    }
  }

  lemma {:induction false} RunReplays<T>(s: State<T>, steps: seq<Step<T>>)
    requires Sound(s)
    ensures s.ring.freed <= |s.ring.accepted| && Run(s, steps).ring.freed <= |Run(s, steps).ring.accepted|
    ensures Replay(Abstract(s), Acts(s, steps)) == Some(Abstract(Run(s, steps)))
    decreases |steps|
  {
    if |steps| > 0 {
      if Enabled(s, steps[0]) {
        StepsRefineQueue(s, steps[0]);
        SoundStep(s, steps[0]);
        RunReplays(Do(s, steps[0]), steps[1..]);
        ReplayThen(Abstract(s), Effect(s, steps[0]), Acts(Do(s, steps[0]), steps[1..]));
      } else {
        RunReplays(s, steps[1..]);
      }
    }
  }

  lemma AnswersThen<T>(effect: Option<Act<T>>, rest: seq<Act<T>>)
    ensures ProducerAnswers(WithEffect(effect, rest)) == AsSeq(ProducerAnswer(effect)) + ProducerAnswers(rest)
    ensures ConsumerAnswers(WithEffect(effect, rest)) == AsSeq(ConsumerAnswer(effect)) + ConsumerAnswers(rest)
  {
    if effect.Some? {
      assert ([effect.value] + rest)[1..] == rest;
    }
  }

  lemma SettlesThen<A>(owed: Option<A>, decided: Option<A>, returned: Option<A>, owed': Option<A>,
                       answers: seq<A>, returns': seq<A>, last: seq<A>)
    requires Settles(owed, decided, returned, owed') && AsSeq(owed') + answers == returns' + last
    ensures AsSeq(owed) + (AsSeq(decided) + answers) == (AsSeq(returned) + returns') + last
  {
    assert AsSeq(owed) + (AsSeq(decided) + answers) == (AsSeq(owed) + AsSeq(decided)) + answers;
    assert AsSeq(owed) + AsSeq(decided) == AsSeq(returned) + AsSeq(owed');
    assert (AsSeq(returned) + AsSeq(owed')) + answers == AsSeq(returned) + (AsSeq(owed') + answers);
    assert AsSeq(returned) + (returns' + last) == (AsSeq(returned) + returns') + last;
  }

  lemma {:induction false} ProducerRunAnswers<T>(s: State<T>, steps: seq<Step<T>>)
    requires s.ring.Capacity() > 0
    ensures AsSeq(ProducerOwes(s)) + ProducerAnswers(Acts(s, steps)) ==
            AllProducerReturns(s, steps) + AsSeq(ProducerOwes(Run(s, steps)))
    decreases |steps|
  {
    if |steps| > 0 {
      if Enabled(s, steps[0]) {
        var step, next, rest := steps[0], Do(s, steps[0]), steps[1..];
        ProducerRunAnswers(next, rest);
        AnswersThen(Effect(s, step), Acts(next, rest));
        ProducerSettles(s, step);
        SettlesThen(ProducerOwes(s), ProducerAnswer(Effect(s, step)), ProducerReturns(s, step), ProducerOwes(next),
                    ProducerAnswers(Acts(next, rest)), AllProducerReturns(next, rest), AsSeq(ProducerOwes(Run(next, rest))));
      } else {
        ProducerRunAnswers(s, steps[1..]);
      }
    }
  }

  lemma {:induction false} ConsumerRunAnswers<T>(s: State<T>, steps: seq<Step<T>>)
    requires Sound(s)
    ensures AsSeq(ConsumerOwes(s)) + ConsumerAnswers(Acts(s, steps)) ==
            AllConsumerReturns(s, steps) + AsSeq(ConsumerOwes(Run(s, steps)))
    decreases |steps|
  {
    if |steps| > 0 {
      if Enabled(s, steps[0]) {
        var step, next, rest := steps[0], Do(s, steps[0]), steps[1..];
        SoundStep(s, step);
        ConsumerRunAnswers(next, rest);
        AnswersThen(Effect(s, step), Acts(next, rest));
        BaseHasTaken(s);
        ConsumerSettles(s, step);
        SettlesThen(ConsumerOwes(s), ConsumerAnswer(Effect(s, step)), ConsumerReturns(s, step), ConsumerOwes(next),
                    ConsumerAnswers(Acts(next, rest)), AllConsumerReturns(next, rest), AsSeq(ConsumerOwes(Run(next, rest))));
      } else {
        ConsumerRunAnswers(s, steps[1..]);
      }
    }
  }

  /** Linearizability, for any mix of push, try_push, pop, try_pop and stops: the acts of a
      run, in order, are possible for the sequential queue and lead to the queue the ring
      stands for; and the calls of each thread return exactly the answers of their acts. */
  lemma Linearizable<T>(capacity: nat, steps: seq<Step<T>>)
    requires capacity >= 2
    ensures var s := Run(Initial<T>(capacity), steps);
            var acts := Acts(Initial<T>(capacity), steps);
            && s.ring.freed <= |s.ring.accepted| && s.ring.Capacity() > 0
            && Replay(Queue([], capacity, false), acts) == Some(Abstract(s))
            && ProducerAnswers(acts) == AllProducerReturns(Initial<T>(capacity), steps) + AsSeq(ProducerOwes(s))
            && ConsumerAnswers(acts) == AllConsumerReturns(Initial<T>(capacity), steps) + AsSeq(ConsumerOwes(s))
  {
    InitialIsSound<T>(capacity);
    RunReplays(Initial<T>(capacity), steps);
    ProducerRunAnswers(Initial<T>(capacity), steps);
    ConsumerRunAnswers(Initial<T>(capacity), steps);
    assert Abstract(Initial<T>(capacity)) == Queue([], capacity, false);
    EmptyPrefix(ProducerAnswers(Acts(Initial<T>(capacity), steps)));
    EmptyPrefix(ConsumerAnswers(Acts(Initial<T>(capacity), steps)));
  }

  lemma EmptyPrefix<A>(a: seq<A>)
    ensures [] + a == a
  {
  }
}
