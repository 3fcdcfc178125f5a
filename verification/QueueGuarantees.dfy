/** What the interleavings of QueueSteps guarantee: order, no lost wakeups, no deadlock,
    and an orderly end after request_stop. */
module QueueGuarantees {
  import opened Common
  import opened EventQueue
  import opened QueueSteps

  // ------------------------------------------------------------ the mutex

  predicate ProducerHolds<T>(p: Producer<T>) {
    match p
    case PChecking(_) => true
    case PReading(_, mode) => mode == Locked
    case PHaveHead(_, mode, _) => mode == Locked
    case PHaveBoth(_, mode, _, _) => mode == Locked
    case PWriting(_, mode, _) => mode == Locked
    case PPublishing(_, mode, _) => mode == Locked
    case PUnlocking => true
    case PRefused => true
    case _ => false
  }

  predicate ConsumerHolds(c: Consumer) {
    match c
    case CChecking => true
    case CReading(_, mode) => mode == Locked
    case CHaveHead(_, mode, _) => mode == Locked
    case CHaveBoth(_, mode, _, _) => mode == Locked
    case CTaking(mode, _) => mode == Locked
    case CPublishing(mode, _) => mode == Locked
    case CUnlocking => true
    case CDrained => true
    case _ => false
  }

  ghost predicate MutexOk<T>(s: State<T>) {
    && (ProducerHolds(s.producer) <==> s.mutex == ByProducer)
    && (ConsumerHolds(s.consumer) <==> s.mutex == ByConsumer)
    && (s.stopper.SSetting? || s.stopper.SUnlocking? <==> s.mutex == ByStopper)
  }

  // The test inside a wait always runs under the mutex.
  ghost predicate WaitsLocked<T>(s: State<T>) {
    match s.consumer
    case CReading(final, mode) => final || mode == Locked
    case CHaveHead(final, mode, _) => final || mode == Locked
    case CHaveBoth(final, mode, _, _) => final || mode == Locked
    case _ => true
  }

  lemma MutexProducerStep<T>(s: State<T>)
    requires s.ring.Capacity() > 0 && MutexOk(s) && WaitsLocked(s) && Enabled(s, ProducerMoves)
    ensures MutexOk(ProducerStep(s)) && WaitsLocked(ProducerStep(s))
  {
  }

  lemma MutexConsumerStep<T>(s: State<T>)
    requires s.ring.Capacity() > 0 && MutexOk(s) && WaitsLocked(s) && Enabled(s, ConsumerMoves)
    ensures MutexOk(ConsumerStep(s)) && WaitsLocked(ConsumerStep(s))
  {
  }

  lemma MutexStep<T>(s: State<T>, step: Step<T>)
    requires s.ring.Capacity() > 0 && MutexOk(s) && WaitsLocked(s) && Enabled(s, step)
    ensures MutexOk(Do(s, step)) && WaitsLocked(Do(s, step))
  {
    if step.ProducerMoves? {
      MutexProducerStep(s);
    } else if step.ConsumerMoves? {
      MutexConsumerStep(s);
    }
  }

  // ------------------------------------------------------------ what stop_ implies

  // A push past its test of stop_ is not overtaken by a stop.
  ghost predicate ProducerSawNoStop<T>(s: State<T>) {
    match s.producer
    case PReading(_, mode) => mode == Locked ==> !s.stop
    case PHaveHead(_, mode, _) => mode == Locked ==> !s.stop
    case PHaveBoth(_, mode, _, _) => mode == Locked ==> !s.stop
    case PWriting(_, mode, _) => mode == Locked ==> !s.stop
    case PPublishing(_, mode, _) => mode == Locked ==> !s.stop
    case _ => true
  }

  // A pop waits only if there was no stop, and gives up only if there was one.
  ghost predicate ConsumerSawStop<T>(s: State<T>) {
    match s.consumer
    case CReading(final, mode) =>
      (!final ==> !s.stop) && (final && mode == Locked && !s.stop ==> s.ring.freed < |s.ring.accepted|)
    case CHaveHead(final, mode, _) =>
      (!final ==> !s.stop) && (final && mode == Locked && !s.stop ==> s.ring.freed < s.seenHead)
    case CHaveBoth(final, mode, _, _) =>
      (!final ==> !s.stop) && (final && mode == Locked && !s.stop ==> s.ring.freed < s.seenHead)
    case CDrained => s.stop
    case _ => true
  }

  lemma ProducerSawNoStopStep<T>(s: State<T>, step: Step<T>)
    requires s.ring.Capacity() > 0 && MutexOk(s) && ProducerSawNoStop(s) && Enabled(s, step)
    ensures ProducerSawNoStop(Do(s, step))
  {
  }

  lemma ConsumerSawStopStep<T>(s: State<T>, step: Step<T>)
    requires RingOk(s) && MutexOk(s) && WaitsLocked(s) && ConsumerSawStop(s) && Enabled(s, step)
    ensures ConsumerSawStop(Do(s, step))
  {
    if step.ConsumerMoves? && s.consumer.CHaveBoth? {
      PosLap(s.ring.freed, s.seenHead, s.ring.Capacity());
    }
  }

  // Everything that holds whatever mix of calls the threads make.
  ghost predicate Base<T>(s: State<T>) {
    RingOk(s) && MutexOk(s) && WaitsLocked(s) && ProducerSawNoStop(s) && ConsumerSawStop(s)
  }

  lemma BaseStep<T>(s: State<T>, step: Step<T>)
    requires Base(s) && Enabled(s, step)
    ensures Base(Do(s, step))
  {
    RingStep(s, step);
    MutexStep(s, step);
    ProducerSawNoStopStep(s, step);
    ConsumerSawStopStep(s, step);
  }

  // ------------------------------------------------------------ who owes a notification

  predicate OwesConsumer<T>(s: State<T>) {
    || s.producer.PUnlocking? || s.producer.PNotifying?
    || s.stopper.SUnlocking? || s.stopper.SNotifyingProducer? || s.stopper.SNotifyingConsumer?
  }

  predicate OwesProducer<T>(s: State<T>) {
    || s.consumer.CUnlocking? || s.consumer.CNotifying?
    || s.stopper.SUnlocking? || s.stopper.SNotifyingProducer?
  }

  // The predicates of the two waits.
  ghost predicate MayPop<T>(s: State<T>) {
    s.stop || s.ring.freed < |s.ring.accepted|
  }

  ghost predicate MayPush<T>(s: State<T>) {
    s.stop || Room(s.ring)
  }

  predicate Sleeps(c: Consumer) {
    c.CWaiting? && !c.woken
  }

  predicate Blocked<T>(p: Producer<T>) {
    p.PWaiting? && !p.woken
  }

  // No thread sleeps through a condition it waits for unless someone is about to notify.
  ghost predicate ConsumerNotForgotten<T>(s: State<T>) {
    Sleeps(s.consumer) && MayPop(s) ==> OwesConsumer(s)
  }

  ghost predicate ProducerNotForgotten<T>(s: State<T>) {
    Blocked(s.producer) && MayPush(s) ==> OwesProducer(s)
  }

  predicate Lockless<T>(p: Producer<T>) {
    match p
    case PReading(_, mode) => mode == Mode.Lockless
    case PHaveHead(_, mode, _) => mode == Mode.Lockless
    case PHaveBoth(_, mode, _, _) => mode == Mode.Lockless
    case PWriting(_, mode, _) => mode == Mode.Lockless
    case PPublishing(_, mode, _) => mode == Mode.Lockless
    case _ => false
  }

  predicate LocklessConsumer(c: Consumer) {
    match c
    case CReading(_, mode) => mode == Mode.Lockless
    case CHaveHead(_, mode, _) => mode == Mode.Lockless
    case CHaveBoth(_, mode, _, _) => mode == Mode.Lockless
    case CTaking(mode, _) => mode == Mode.Lockless
    case CPublishing(mode, _) => mode == Mode.Lockless
    case _ => false
  }

  // Under the mutex, an index read from the other side is still current.
  ghost predicate ConsumerCurrent<T>(s: State<T>) {
    (s.consumer.CHaveHead? || s.consumer.CHaveBoth?) && s.consumer.mode == Locked ==> s.seenHead == |s.ring.accepted|
  }

  ghost predicate ProducerCurrent<T>(s: State<T>) {
    s.producer.PHaveBoth? && s.producer.mode == Locked ==> s.seenTail == s.ring.freed
  }

  ghost predicate ConsumerCares<T>(s: State<T>) {
    !Lockless(s.producer) && ConsumerCurrent(s) && ConsumerNotForgotten(s)
  }

  lemma ConsumerCaresOwnStep<T>(s: State<T>)
    requires Base(s) && Enabled(s, ConsumerMoves) && ConsumerCares(s)
    ensures ConsumerCares(ConsumerStep(s))
  {
    if s.consumer.CHaveBoth? {
      PosLap(s.ring.freed, s.seenHead, s.ring.Capacity());
    }
  }

  lemma ConsumerCaresProducerStep<T>(s: State<T>)
    requires Base(s) && Enabled(s, ProducerMoves) && ConsumerCares(s)
    ensures ConsumerCares(ProducerStep(s))
  {
  }

  /** Without try_push, the consumer is never forgotten. */
  lemma ConsumerNotForgottenStep<T>(s: State<T>, step: Step<T>)
    requires Base(s) && Enabled(s, step) && !step.CallTryPush? && ConsumerCares(s)
    ensures ConsumerCares(Do(s, step))
  {
    if step.ProducerMoves? {
      ConsumerCaresProducerStep(s);
    } else if step.ConsumerMoves? {
      ConsumerCaresOwnStep(s);
    }
  }

  ghost predicate ProducerCares<T>(s: State<T>) {
    !LocklessConsumer(s.consumer) && ProducerCurrent(s) && ProducerNotForgotten(s)
  }

  lemma ProducerCaresOwnStep<T>(s: State<T>)
    requires Base(s) && Enabled(s, ProducerMoves) && ProducerCares(s)
    ensures ProducerCares(ProducerStep(s))
  {
    if s.producer.PHaveBoth? {
      PosLap(s.seenTail, |s.ring.accepted| + 1, s.ring.Capacity());
    }
  }

  lemma ProducerCaresConsumerStep<T>(s: State<T>)
    requires Base(s) && Enabled(s, ConsumerMoves) && ProducerCares(s)
    ensures ProducerCares(ConsumerStep(s))
  {
  }

  /** Without try_pop, the producer is never forgotten. */
  lemma ProducerNotForgottenStep<T>(s: State<T>, step: Step<T>)
    requires Base(s) && Enabled(s, step) && !step.CallTryPop? && ProducerCares(s)
    ensures ProducerCares(Do(s, step))
  {
    if step.ProducerMoves? {
      ProducerCaresOwnStep(s);
    } else if step.ConsumerMoves? {
      ProducerCaresConsumerStep(s);
    }
  }

  /** With try_push the guarantee is lost in exactly one situation: the consumer goes to
      sleep on an index it read before an item was published, and the notification for
      that item has already been sent. */
  lemma ForgottenExactly<T>(s: State<T>, step: Step<T>)
    requires Base(s) && Enabled(s, step) && ConsumerNotForgotten(s)
    ensures !ConsumerNotForgotten(Do(s, step)) <==>
            && step.ConsumerMoves?
            && s.consumer.CHaveBoth? && !s.consumer.final && s.consumer.h == s.consumer.t
            && s.seenHead < |s.ring.accepted|
            && !OwesConsumer(s)
  {
    if step.ConsumerMoves? && s.consumer.CHaveBoth? {
      PosLap(s.ring.freed, s.seenHead, s.ring.Capacity());
    }
  }

  /** With try_pop, likewise: the producer goes to sleep on an index it read before a slot
      was released, and the notification for that slot has already been sent. */
  lemma ProducerForgottenExactly<T>(s: State<T>, step: Step<T>)
    requires Base(s) && Enabled(s, step) && ProducerNotForgotten(s)
    ensures !ProducerNotForgotten(Do(s, step)) <==>
            && step.ProducerMoves?
            && s.producer.PHaveBoth? && s.producer.mode == Locked && Next(s.producer.h, s.ring.Capacity()) == s.producer.t
            && s.seenTail < s.ring.freed
            && !OwesProducer(s)
  {
    if step.ProducerMoves? && s.producer.PHaveBoth? {
      PosLap(s.seenTail, |s.ring.accepted| + 1, s.ring.Capacity());
    }
  }

  // ------------------------------------------------------------ stopping

  // Once request_stop has sent its notifications nobody sleeps, whatever calls are mixed.
  ghost predicate StopHeard<T>(s: State<T>) {
    && (s.stop && !s.stopper.SUnlocking? && !s.stopper.SNotifyingProducer? ==> !Blocked(s.producer))
    && (s.stop && !s.stopper.SUnlocking? && !s.stopper.SNotifyingProducer? && !s.stopper.SNotifyingConsumer? ==>
          !Sleeps(s.consumer))
  }

  lemma StopHeardStep<T>(s: State<T>, step: Step<T>)
    requires Base(s) && Enabled(s, step) && StopHeard(s)
    ensures StopHeard(Do(s, step))
  {
  }

  // ------------------------------------------------------------ progress

  // Steps left for each thread if nobody calls anything new; being woken costs 6 more.
  function ProducerRank<T>(p: Producer<T>): nat {
    match p
    case PIdle => 0
    case PRefused => 1
    case PNotifying => 20
    case PUnlocking => 21
    case PPublishing(_, _, _) => 22
    case PWriting(_, _, _) => 23
    case PWaiting(_, woken) => if woken then 36 else 30
    case PHaveBoth(_, _, _, _) => 31
    case PHaveHead(_, _, _) => 32
    case PReading(_, _) => 33
    case PChecking(_) => 34
    case PLocking(_) => 35
  }

  function ConsumerRank(c: Consumer): nat {
    match c
    case CIdle => 0
    case CDrained => 1
    case CNotifying => 7
    case CUnlocking => 8
    case CPublishing(_, _) => 9
    case CTaking(_, _) => 10
    case CHaveBoth(final, _, _, _) => if final then 11 else 15
    case CHaveHead(final, _, _) => if final then 12 else 16
    case CReading(final, _) => if final then 13 else 17
    case CWaiting(woken) => if woken then 20 else 14
    case CChecking => 18
    case CLocking => 19
  }

  function StopperRank(t: Stopper): nat {
    match t
    case SIdle => 0
    case SNotifyingConsumer => 7
    case SNotifyingProducer => 14
    case SUnlocking => 15
    case SSetting => 16
    case SLocking => 17
  }

  function Rank<T>(s: State<T>): nat {
    ProducerRank(s.producer) + ConsumerRank(s.consumer) + StopperRank(s.stopper)
  }

  predicate Moves<T>(step: Step<T>) {
    step.ProducerMoves? || step.ConsumerMoves? || step.StopperMoves?
  }

  lemma ProducerRankDecreases<T>(s: State<T>)
    requires s.ring.Capacity() > 0 && Enabled(s, ProducerMoves)
    ensures Rank(ProducerStep(s)) < Rank(s)
  {
    assert ConsumerRank(WakeConsumer(s.consumer)) <= ConsumerRank(s.consumer) + 6;
  }

  lemma ConsumerRankDecreases<T>(s: State<T>)
    requires s.ring.Capacity() > 0 && Enabled(s, ConsumerMoves)
    ensures Rank(ConsumerStep(s)) < Rank(s)
  {
    assert ProducerRank(WakeProducer(s.producer)) <= ProducerRank(s.producer) + 6;
  }

  /** No livelock: every step a thread takes on its own brings the calls nearer their end. */
  lemma RankDecreases<T>(s: State<T>, step: Step<T>)
    requires s.ring.Capacity() > 0 && Enabled(s, step) && Moves(step)
    ensures Rank(Do(s, step)) < Rank(s)
  {
    if step.ProducerMoves? {
      ProducerRankDecreases(s);
    } else if step.ConsumerMoves? {
      ConsumerRankDecreases(s);
    } else {
      assert ConsumerRank(WakeConsumer(s.consumer)) <= ConsumerRank(s.consumer) + 6;
      assert ProducerRank(WakeProducer(s.producer)) <= ProducerRank(s.producer) + 6;
    }
  }

  /** No deadlock: if no thread can move, every call has returned or waits for something
      that is really missing, and producer and consumer do not wait for each other. */
  lemma StuckOnlyWhenWaiting<T>(s: State<T>)
    requires Base(s) && ConsumerNotForgotten(s) && ProducerNotForgotten(s)
    requires Quiet(s)
    ensures s.stopper.SIdle?
    ensures s.producer.PIdle? || (Blocked(s.producer) && !MayPush(s))
    ensures s.consumer.CIdle? || (Sleeps(s.consumer) && !MayPop(s))
    ensures s.producer.PIdle? || s.consumer.CIdle?
  {
  }

  // ------------------------------------------------------------ whole runs

  // The state a run leads to; a step that is not possible does nothing.
  function Run<T>(s: State<T>, steps: seq<Step<T>>): (s': State<T>)
    requires s.ring.Capacity() > 0
    ensures s'.ring.Capacity() == s.ring.Capacity()
    decreases |steps|
  {
    if |steps| == 0 then s
    else Run(if Enabled(s, steps[0]) then Do(s, steps[0]) else s, steps[1..])
  }

  ghost predicate Sound<T>(s: State<T>) {
    Base(s) && StopHeard(s)
  }

  lemma SoundStep<T>(s: State<T>, step: Step<T>)
    requires Sound(s) && Enabled(s, step)
    ensures Sound(Do(s, step)) && (s.stop ==> Do(s, step).stop)
  {
    BaseStep(s, step);
    StopHeardStep(s, step);
  }

  lemma {:induction false} SoundAlways<T>(s: State<T>, steps: seq<Step<T>>)
    requires Sound(s)
    ensures Sound(Run(s, steps))
    decreases |steps|
  {
    if |steps| > 0 {
      if Enabled(s, steps[0]) {
        SoundStep(s, steps[0]);
        SoundAlways(Do(s, steps[0]), steps[1..]);
      } else {
        SoundAlways(s, steps[1..]);
      }
    }
  }

  lemma InitialIsSound<T>(capacity: nat)
    requires capacity >= 2
    ensures Sound(Initial<T>(capacity)) && ConsumerCares(Initial<T>(capacity)) && ProducerCares(Initial<T>(capacity))
  {
  }

  /** In every interleaving of push, try_push, pop, try_pop and stops: the items popped
      are, in order, the first of the items accepted; the slot being written holds no
      item still to be taken; and the consumer is not reading that slot. */
  lemma FifoSafety<T>(capacity: nat, steps: seq<Step<T>>)
    requires capacity >= 2
    ensures var s := Run(Initial(capacity), steps);
            && |s.ring.popped| <= |s.ring.accepted|
            && (forall n :: 0 <= n < |s.ring.popped| ==> s.ring.popped[n] == Some(s.ring.accepted[n]))
            && (s.producer.PWriting? ==>
                  && (forall n :: |s.ring.popped| <= n < |s.ring.accepted| ==> Pos(n, capacity) != s.producer.h)
                  && (s.consumer.CTaking? ==> s.consumer.t != s.producer.h))
  {
    InitialIsSound<T>(capacity);
    SoundAlways(Initial(capacity), steps);
    var s := Run(Initial(capacity), steps);
    if s.producer.PWriting? {
      PosDistinct(s.ring.freed, |s.ring.accepted|, capacity);
    }
  }

  predicate NoTryPush<T>(steps: seq<Step<T>>) {
    forall i :: 0 <= i < |steps| ==> !steps[i].CallTryPush?
  }

  predicate NoTryPop<T>(steps: seq<Step<T>>) {
    forall i :: 0 <= i < |steps| ==> !steps[i].CallTryPop?
  }

  lemma {:induction false} ConsumerNeverForgotten<T>(s: State<T>, steps: seq<Step<T>>)
    requires Sound(s) && ConsumerCares(s) && NoTryPush(steps)
    ensures ConsumerCares(Run(s, steps))
    decreases |steps|
  {
    if |steps| > 0 {
      var next := if Enabled(s, steps[0]) then Do(s, steps[0]) else s;
      if Enabled(s, steps[0]) {
        SoundStep(s, steps[0]);
        ConsumerNotForgottenStep(s, steps[0]);
      }
      ConsumerNeverForgotten(next, steps[1..]);
    }
  }

  lemma {:induction false} ProducerNeverForgotten<T>(s: State<T>, steps: seq<Step<T>>)
    requires Sound(s) && ProducerCares(s) && NoTryPop(steps)
    ensures ProducerCares(Run(s, steps))
    decreases |steps|
  {
    if |steps| > 0 {
      var next := if Enabled(s, steps[0]) then Do(s, steps[0]) else s;
      if Enabled(s, steps[0]) {
        SoundStep(s, steps[0]);
        ProducerNotForgottenStep(s, steps[0]);
      }
      ProducerNeverForgotten(next, steps[1..]);
    }
  }

  /** No lost wakeup on either side, as long as the other side does not use its lockless
      call; and then the two never both sleep with nobody about to wake them. Spurious
      wakeups and stops are allowed anywhere. */
  lemma NoLostWakeup<T>(capacity: nat, steps: seq<Step<T>>)
    requires capacity >= 2
    ensures var s := Run(Initial(capacity), steps);
            && (NoTryPush(steps) ==> ConsumerNotForgotten(s))
            && (NoTryPop(steps) ==> ProducerNotForgotten(s))
            && (NoTryPush(steps) && NoTryPop(steps) && Blocked(s.producer) && Sleeps(s.consumer) ==>
                  OwesConsumer(s) || OwesProducer(s))
  {
    InitialIsSound<T>(capacity);
    SoundAlways(Initial(capacity), steps);
    if NoTryPush(steps) {
      ConsumerNeverForgotten(Initial(capacity), steps);
    }
    if NoTryPop(steps) {
      ProducerNeverForgotten(Initial(capacity), steps);
    }
  }

  /** No deadlock, in any run of the blocking calls: if no thread can move, no stop is under
      way, each call has returned or waits for something that is really missing, and at
      most one of the two threads waits. */
  lemma NoDeadlock<T>(capacity: nat, steps: seq<Step<T>>)
    requires capacity >= 2 && NoTryPush(steps) && NoTryPop(steps)
    requires Quiet(Run(Initial<T>(capacity), steps))
    ensures var s := Run(Initial<T>(capacity), steps);
            && s.stopper.SIdle?
            && (s.producer.PIdle? || (Blocked(s.producer) && !MayPush(s)))
            && (s.consumer.CIdle? || (Sleeps(s.consumer) && !MayPop(s)))
            && (s.producer.PIdle? || s.consumer.CIdle?)
  {
    NoLostWakeup<T>(capacity, steps);
    InitialIsSound<T>(capacity);
    SoundAlways(Initial<T>(capacity), steps);
    StuckOnlyWhenWaiting(Run(Initial<T>(capacity), steps));
  }

  // Steps of the threads alone: no new calls, no spurious wakeups.
  ghost predicate Unfolds<T>(s: State<T>, more: seq<Step<T>>)
    requires s.ring.Capacity() > 0
    decreases |more|
  {
    |more| == 0 || (Moves(more[0]) && Enabled(s, more[0]) && Unfolds(Do(s, more[0]), more[1..]))
  }

  predicate Quiet<T>(s: State<T>) {
    !Enabled(s, ProducerMoves) && !Enabled(s, ConsumerMoves) && !Enabled(s, StopperMoves)
  }

  lemma QuietAfterStop<T>(s: State<T>)
    requires Base(s) && StopHeard(s) && s.stop && s.stopper.SIdle? && Quiet(s)
    ensures s.producer.PIdle? && s.consumer.CIdle?
  {
  }

  lemma {:induction false} StoppedRunEnds<T>(s: State<T>, more: seq<Step<T>>)
    requires Sound(s) && s.stop && s.stopper.SIdle? && Unfolds(s, more)
    ensures |more| <= Rank(s)
    ensures Quiet(Run(s, more)) ==> Run(s, more).producer.PIdle? && Run(s, more).consumer.CIdle?
    decreases |more|
  {
    if |more| == 0 {
      if Quiet(s) {
        QuietAfterStop(s);
      }
    } else {
      RankDecreases(s, more[0]);
      SoundStep(s, more[0]);
      StoppedRunEnds(Do(s, more[0]), more[1..]);
    }
  }

  /** Once request_stop has returned no thread sleeps, whatever mix of calls was made, and
      without new calls every call returns within a bounded number of steps. */
  lemma StopEndsEverything<T>(capacity: nat, steps: seq<Step<T>>, more: seq<Step<T>>)
    requires capacity >= 2
    requires var s := Run(Initial(capacity), steps); s.stop && s.stopper.SIdle? && Unfolds(s, more)
    ensures var s := Run(Initial(capacity), steps);
            && !Blocked(s.producer) && !Sleeps(s.consumer)
            && |more| <= Rank(s) <= 73
            && (Quiet(Run(s, more)) ==> Run(s, more).producer.PIdle? && Run(s, more).consumer.CIdle?)
  {
    InitialIsSound<T>(capacity);
    SoundAlways(Initial(capacity), steps);
    StoppedRunEnds(Run(Initial(capacity), steps), more);
  }

  // Nothing is left once pop has decided to return false.
  ghost predicate DrainedOk<T>(s: State<T>) {
    s.consumer.CDrained? ==> s.stop && |s.ring.popped| == |s.ring.accepted|
  }

  lemma DrainedStep<T>(s: State<T>, step: Step<T>)
    requires Base(s) && Enabled(s, step) && !Lockless(s.producer) && ConsumerCurrent(s) && DrainedOk(s)
    ensures DrainedOk(Do(s, step))
  {
    if step.ConsumerMoves? && s.consumer.CHaveBoth? {
      PosLap(s.ring.freed, s.seenHead, s.ring.Capacity());
    }
  }

  lemma {:induction false} DrainedAlways<T>(s: State<T>, steps: seq<Step<T>>)
    requires Sound(s) && ConsumerCares(s) && DrainedOk(s) && NoTryPush(steps)
    ensures DrainedOk(Run(s, steps))
    decreases |steps|
  {
    if |steps| > 0 {
      var next := if Enabled(s, steps[0]) then Do(s, steps[0]) else s;
      if Enabled(s, steps[0]) {
        SoundStep(s, steps[0]);
        ConsumerNotForgottenStep(s, steps[0]);
        DrainedStep(s, steps[0]);
      }
      DrainedAlways(next, steps[1..]);
    }
  }

  /** pop returns false only when the queue was stopped and everything accepted has been
      popped; and after a stop nothing more is accepted. */
  lemma DrainedMeansComplete<T>(capacity: nat, steps: seq<Step<T>>, more: seq<Step<T>>)
    requires capacity >= 2 && NoTryPush(steps) && NoTryPush(more)
    ensures var s := Run(Initial(capacity), steps);
            && (s.consumer.CDrained? ==> s.stop && |s.ring.popped| == |s.ring.accepted|)
            && (s.stop ==> Run(s, more).ring.accepted == s.ring.accepted)
  {
    InitialIsSound<T>(capacity);
    SoundAlways(Initial(capacity), steps);
    ConsumerNeverForgotten(Initial(capacity), steps);
    DrainedAlways(Initial(capacity), steps);
    if Run(Initial(capacity), steps).stop {
      StoppedAcceptsNothing(Run(Initial(capacity), steps), more);
    }
  }

  lemma {:induction false} StoppedAcceptsNothing<T>(s: State<T>, more: seq<Step<T>>)
    requires Sound(s) && ConsumerCares(s) && s.stop && NoTryPush(more)
    ensures Run(s, more).ring.accepted == s.ring.accepted
    decreases |more|
  {
    if |more| > 0 {
      var next := if Enabled(s, more[0]) then Do(s, more[0]) else s;
      if Enabled(s, more[0]) {
        SoundStep(s, more[0]);
        ConsumerNotForgottenStep(s, more[0]);
        StopPersists(s, more[0]);
      }
      StoppedAcceptsNothing(next, more[1..]);
    }
  }

  lemma StopPersists<T>(s: State<T>, step: Step<T>)
    requires Base(s) && s.stop && !Lockless(s.producer)
    ensures Do(s, step).stop && Do(s, step).ring.accepted == s.ring.accepted
  {
  }
}
