/** src/controller.cpp: from the poll thread through the event queue to the sinks and the
    stream clients, all threads interleaved. The event queue appears as the queue its ring
    refines; see QueueLinearizability.Linearizable. */
module Pipeline {
  import opened Common
  import opened EventQueue
  import opened StreamClient

  type ClientId = nat

  // consumer_loop. Fanning, Offering and Pushing run under clients_mu_.
  datatype Consumer<E> =
    | Popping
    | Logging(event: E)
    | Locking(event: E)
    | Fanning(event: E, rest: seq<ClientId>)
    | Offering(event: E, rest: seq<ClientId>)   // the loop found the head open
    | Pushing(event: E, rest: seq<ClientId>)    // and so did push
    | Finished

  // pending: the event a push under way carries. emitted, accepted: every event given to
  // push, every event push enqueued. fanned: fan-outs begun. table remembers every client
  // that ever subscribed, clients lists those subscribed now.
  datatype State<E> = State(
    queue: Queue<E>,
    pending: Option<E>,
    emitted: seq<E>,
    accepted: seq<E>,
    sink: seq<E>,
    consumer: Consumer<E>,
    fanned: nat,
    clients: seq<ClientId>,
    table: map<ClientId, Client<E>>)

  datatype Step<E> =
    | Emit(event: E)
    | PushReturns
    | Stop
    | Pop
    | Log
    | Lock
    | Check
    | CheckAgain
    | PushToClient
    | Unlock
    | Subscribe(id: ClientId)
    | Unsubscribe(id: ClientId)
    | CloseClient(id: ClientId, shutdown: bool)
    | WriterTakes(id: ClientId)

  function Without(ids: seq<ClientId>, id: ClientId): seq<ClientId> {
    if ids == [] then []
    else if ids[0] == id then Without(ids[1..], id)
    else [ids[0]] + Without(ids[1..], id)
  }

  predicate InFanOut<E>(c: Consumer<E>) {
    c.Fanning? || c.Offering? || c.Pushing?
  }

  predicate MutexFree<E>(s: State<E>) {
    !InFanOut(s.consumer)
  }

  predicate HasHead<E>(s: State<E>) {
    InFanOut(s.consumer) && s.consumer.rest != [] && s.consumer.rest[0] in s.table
  }

  predicate Enabled<E>(s: State<E>, step: Step<E>) {
    match step
    case Emit(_) => s.pending.None?
    case PushReturns => s.pending.Some? && PushSpec(s.queue, s.pending.value).1 != WouldBlock
    case Stop => true
    case Pop => s.consumer.Popping? && !PopSpec(s.queue).1.WaitsForItem?
    case Log => s.consumer.Logging?
    case Lock => s.consumer.Locking?
    case Check => s.consumer.Fanning? && HasHead(s)
    case CheckAgain => s.consumer.Offering? && HasHead(s)
    case PushToClient => s.consumer.Pushing? && HasHead(s)
    case Unlock => s.consumer.Fanning? && s.consumer.rest == []
    case Subscribe(id) => MutexFree(s) && id !in s.table
    case Unsubscribe(id) => MutexFree(s)
    case CloseClient(id, _) => id in s.table
    case WriterTakes(id) => id in s.table
  }

  function Do<E>(s: State<E>, step: Step<E>): State<E>
    requires Enabled(s, step)
  {
    match step
    case Emit(e) => s.(pending := Some(e), emitted := s.emitted + [e])
    case PushReturns =>
      var (q, r) := PushSpec(s.queue, s.pending.value);
      s.(queue := q, pending := None, accepted := if r == Accepted then s.accepted + [s.pending.value] else s.accepted)
    case Stop => s.(queue := s.queue.(stopped := true))
    case Pop =>
      var (q, r) := PopSpec(s.queue);
      s.(queue := q, consumer := if r.Item? then Logging(r.value) else Finished)
    case Log => s.(sink := s.sink + [s.consumer.event], consumer := Locking(s.consumer.event))
    case Lock => s.(consumer := Fanning(s.consumer.event, s.clients), fanned := s.fanned + 1)
    case Check =>
      var id, rest := s.consumer.rest[0], s.consumer.rest[1..];
      if s.table[id].closed then s.(clients := Without(s.clients, id), consumer := Fanning(s.consumer.event, rest))
      else s.(consumer := Offering(s.consumer.event, s.consumer.rest))
    case CheckAgain =>
      var id, rest := s.consumer.rest[0], s.consumer.rest[1..];
      s.(consumer := if s.table[id].closed then Fanning(s.consumer.event, rest)
                     else Pushing(s.consumer.event, s.consumer.rest))
    case PushToClient =>
      var id, rest := s.consumer.rest[0], s.consumer.rest[1..];
      s.(table := s.table[id := TryOffer(s.table[id], s.consumer.event)], consumer := Fanning(s.consumer.event, rest))
    case Unlock => s.(consumer := Popping)
    case Subscribe(id) => s.(clients := s.clients + [id], table := s.table[id := NewClient(s.fanned)])
    case Unsubscribe(id) => s.(clients := Without(s.clients, id))
    case CloseClient(id, shutdown) => s.(table := s.table[id := Close(s.table[id], shutdown)])
    case WriterTakes(id) => s.(table := s.table[id := Take(s.table[id])])
  }

  function Run<E>(s: State<E>, steps: seq<Step<E>>): State<E>
    decreases |steps|
  {
    if |steps| == 0 then s else Run(if Enabled(s, steps[0]) then Do(s, steps[0]) else s, steps[1..])
  }

  function Initial<E>(capacity: nat): State<E> {
    State(Queue([], capacity, false), None, [], [], [], Popping, 0, [], map[])
  }

  // ------------------------------------------------------------ the log

  function InHand<E>(c: Consumer<E>): seq<E> {
    if c.Logging? then [c.event] else []
  }

  function Pending<E>(s: State<E>): seq<E> {
    if s.pending.Some? then [s.pending.value] else []
  }

  ghost predicate LogOk<E>(s: State<E>) {
    && s.accepted <= s.emitted
    && (!s.queue.stopped ==> s.emitted == s.accepted + Pending(s))
    && s.accepted == s.sink + InHand(s.consumer) + s.queue.items
    && (s.consumer.Finished? ==> s.queue.stopped && s.queue.items == [])
  }

  lemma AppendLast<T>(a: seq<T>, b: seq<T>, c: seq<T>, x: T)
    ensures a + b + c + [x] == a + b + (c + [x])
  {
  }

  lemma MoveFirst<T>(a: seq<T>, c: seq<T>)
    requires c != []
    ensures a + [] + c == a + [c[0]] + c[1..]
  {
  }

  lemma MoveHand<T>(a: seq<T>, x: T, c: seq<T>)
    ensures a + [x] + c == (a + [x]) + [] + c
  {
  }

  lemma LogStep<E>(s: State<E>, step: Step<E>)
    requires LogOk(s) && Enabled(s, step)
    ensures LogOk(Do(s, step))
    ensures s.queue.stopped ==> Do(s, step).queue.stopped && Do(s, step).accepted == s.accepted
  {
    match step
    case Emit(e) => assert (s.emitted + [e])[..|s.accepted|] == s.emitted[..|s.accepted|];
    case PushReturns => AppendLast(s.sink, InHand(s.consumer), s.queue.items, s.pending.value);
    case Pop =>
      if s.queue.items != [] {
        MoveFirst(s.sink, s.queue.items);
      }
    case Log => MoveHand(s.sink, s.consumer.event, s.queue.items);
    case _ =>
  }

  lemma {:induction false} LogAlways<E>(s: State<E>, steps: seq<Step<E>>)
    requires LogOk(s)
    ensures LogOk(Run(s, steps))
    ensures s.queue.stopped ==> Run(s, steps).accepted == s.accepted
    decreases |steps|
  {
    if |steps| > 0 {
      if Enabled(s, steps[0]) {
        LogStep(s, steps[0]);
        LogAlways(Do(s, steps[0]), steps[1..]);
      } else {
        LogAlways(s, steps[1..]);
      }
    }
  }

  /** In every run the sink log is a prefix of the emitted events; nothing is accepted
      after a stop; and a consumer that finished has logged exactly the accepted events. */
  lemma PipelineLog<E>(capacity: nat, steps: seq<Step<E>>, more: seq<Step<E>>)
    ensures var s := Run(Initial(capacity), steps);
            && s.sink <= s.accepted <= s.emitted
            && (s.queue.stopped ==> Run(s, more).accepted == s.accepted)
            && (s.consumer.Finished? ==> s.queue.stopped && s.sink == s.accepted)
  {
    LogAlways(Initial(capacity), steps);
    LogAlways(Run(Initial(capacity), steps), more);
  }

  ghost predicate HasStop<E>(steps: seq<Step<E>>) {
    exists i :: 0 <= i < |steps| && steps[i].Stop?
  }

  // The events given to emit_event during a run.
  function EmittedBy<E>(s: State<E>, steps: seq<Step<E>>): seq<E>
    decreases |steps|
  {
    if |steps| == 0 then []
    else if !Enabled(s, steps[0]) then EmittedBy(s, steps[1..])
    else (if steps[0].Emit? then [steps[0].event] else []) + EmittedBy(Do(s, steps[0]), steps[1..])
  }

  /** The queue is stopped exactly if a stop was requested, and what counts as emitted is
      what was given to emit_event. */
  lemma {:induction false} RunInputs<E>(s: State<E>, steps: seq<Step<E>>)
    ensures Run(s, steps).queue.stopped <==> s.queue.stopped || HasStop(steps)
    ensures Run(s, steps).emitted == s.emitted + EmittedBy(s, steps)
    decreases |steps|
  {
    if |steps| > 0 {
      var next := if Enabled(s, steps[0]) then Do(s, steps[0]) else s;
      RunInputs(next, steps[1..]);
      assert HasStop(steps) <==> steps[0].Stop? || HasStop(steps[1..]) by {
        assert forall i :: 1 <= i < |steps| ==> steps[i] == steps[1..][i - 1];
        assert forall i :: 0 <= i < |steps| - 1 ==> steps[1..][i] == steps[i + 1];
      }
      if Enabled(s, steps[0]) && steps[0].Emit? {
        assert s.emitted + ([steps[0].event] + EmittedBy(next, steps[1..])) == s.emitted + [steps[0].event] + EmittedBy(next, steps[1..]);
      } else {
        assert [] + EmittedBy(next, steps[1..]) == EmittedBy(next, steps[1..]);
      }
    }
  }

  /** A push waits exactly while the queue is neither stopped nor short of full, and when it
      returns its event has been accepted, unless a stop came first. */
  lemma PushWaitsExactly<E>(s: State<E>)
    requires s.pending.Some?
    ensures Enabled(s, PushReturns) <==> s.queue.stopped || |s.queue.items| + 1 < s.queue.capacity
    ensures Enabled(s, PushReturns) ==>
      && Do(s, PushReturns).pending.None?
      && Do(s, PushReturns).queue.items == s.queue.items + (if s.queue.stopped then [] else [s.pending.value])
  {
    assert s.queue.items + [] == s.queue.items;
  }

  // ------------------------------------------------------------ the drain

  // What is left of the consumer's work after a stop, to be compared lexicographically.
  function Work<E>(s: State<E>): (nat, nat, nat) {
    (|s.queue.items|,
     match s.consumer
       case Logging(_) => 4
       case Locking(_) => 3
       case Fanning(_, _) => 2
       case Offering(_, _) => 2
       case Pushing(_, _) => 2
       case Popping => 1
       case Finished => 0,
     match s.consumer
       case Fanning(_, rest) => 3 * |rest| + 2
       case Offering(_, rest) => 3 * |rest| + 1
       case Pushing(_, rest) => 3 * |rest|
       case _ => 0)
  }

  predicate Less(a: (nat, nat, nat), b: (nat, nat, nat)) {
    a.0 < b.0 || (a.0 == b.0 && (a.1 < b.1 || (a.1 == b.1 && a.2 < b.2)))
  }

  predicate ConsumerStep<E>(step: Step<E>) {
    step.Pop? || step.Log? || step.Lock? || step.Check? || step.CheckAgain? || step.PushToClient? || step.Unlock?
  }

  // The step the consumer thread takes next.
  function OwnStep<E>(c: Consumer<E>): Step<E> {
    match c
    case Popping => Pop
    case Logging(_) => Log
    case Locking(_) => Lock
    case Fanning(_, rest) => if rest == [] then Unlock else Check
    case Offering(_, _) => CheckAgain
    case Pushing(_, _) => PushToClient
    case Finished => Pop
  }

  /** After a stop the consumer cannot be kept from finishing: until then its next step is
      always possible; */
  lemma ConsumerCanMove<E>(s: State<E>)
    requires s.queue.stopped && ClientsOk(s) && !s.consumer.Finished?
    ensures ConsumerStep(OwnStep(s.consumer)) && Enabled(s, OwnStep(s.consumer))
  {
    assert InFanOut(s.consumer) && s.consumer.rest != [] ==> s.consumer.rest[0] in Rest(s.consumer);
  }

  /** each of its steps leaves strictly less work; and no other thread adds any. */
  lemma WorkShrinks<E>(s: State<E>, step: Step<E>)
    requires s.queue.stopped && Enabled(s, step)
    ensures if ConsumerStep(step) then Less(Work(Do(s, step)), Work(s)) else Work(Do(s, step)) == Work(s)
    ensures Do(s, step).queue.stopped
  {
    if step.Pop? && s.queue.items != [] {
      assert |PopSpec(s.queue).0.items| == |s.queue.items| - 1;
    }
  }

  ghost predicate Draining<E>(s: State<E>) {
    s.queue.stopped && LogOk(s) && ClientsOk(s)
  }

  lemma DrainingStep<E>(s: State<E>, step: Step<E>)
    requires Draining(s) && Enabled(s, step)
    ensures Draining(Do(s, step)) && Do(s, step).accepted == s.accepted
  {
    LogStep(s, step);
    ClientsStep(s, step);
  }

  /** Left alone, the consumer finishes, having logged exactly what was accepted. */
  lemma DrainRun<E>(s: State<E>) returns (steps: seq<Step<E>>)
    requires Draining(s)
    ensures forall i :: 0 <= i < |steps| ==> ConsumerStep(steps[i])
    ensures var end := Run(s, steps); end.consumer.Finished? && end.sink == end.accepted == s.accepted
    decreases Work(s).0, Work(s).1, Work(s).2
  {
    if s.consumer.Finished? {
      steps := [];
    } else {
      var step := OwnStep(s.consumer);
      ConsumerCanMove(s);
      WorkShrinks(s, step);
      DrainingStep(s, step);
      var rest := DrainRun(Do(s, step));
      steps := [step] + rest;
      assert steps[1..] == rest;
    }
  }

  // ------------------------------------------------------------ fair schedules

  // Whose turn it is; the other threads may do anything they can.
  datatype Turn<E> = ConsumerTurn | OtherTurn(step: Step<E>)

  function TurnStep<E>(s: State<E>, turn: Turn<E>): Step<E> {
    if turn.ConsumerTurn? then OwnStep(s.consumer) else turn.step
  }

  /** The state after n turns of an unending schedule. */
  function Scheduled<E>(s: State<E>, schedule: nat -> Turn<E>, n: nat): State<E> {
    if n == 0 then s
    else
      var t := Scheduled(s, schedule, n - 1);
      var step := TurnStep(t, schedule(n - 1));
      if Enabled(t, step) then Do(t, step) else t
  }

  ghost predicate TurnComes<E>(schedule: nat -> Turn<E>, n: nat, m: nat) {
    n <= m && schedule(m).ConsumerTurn?
  }

  ghost predicate TurnWillCome<E>(schedule: nat -> Turn<E>, n: nat) {
    exists m: nat :: TurnComes(schedule, n, m)
  }

  ghost predicate Fair<E>(schedule: nat -> Turn<E>) {
    forall n: nat :: TurnWillCome(schedule, n)
  }

  predicate AtMost(a: (nat, nat, nat), b: (nat, nat, nat)) {
    a == b || Less(a, b)
  }

  lemma TurnShrinks<E>(t: State<E>, step: Step<E>)
    requires Draining(t)
    ensures var t' := if Enabled(t, step) then Do(t, step) else t;
            Draining(t') && t'.accepted == t.accepted && AtMost(Work(t'), Work(t))
  {
    if Enabled(t, step) {
      DrainingStep(t, step);
      WorkShrinks(t, step);
    }
  }

  lemma AtMostTransitive(a: (nat, nat, nat), b: (nat, nat, nat), c: (nat, nat, nat))
    requires AtMost(a, b) && AtMost(b, c)
    ensures AtMost(a, c)
  {
  }

  lemma {:induction false} DrainingStays<E>(s: State<E>, schedule: nat -> Turn<E>, n: nat)
    requires Draining(s)
    ensures Draining(Scheduled(s, schedule, n)) && Scheduled(s, schedule, n).accepted == s.accepted
    decreases n
  {
    if n > 0 {
      DrainingStays(s, schedule, n - 1);
      var t := Scheduled(s, schedule, n - 1);
      TurnShrinks(t, TurnStep(t, schedule(n - 1)));
    }
  }

  lemma {:induction false} WorkNeverGrows<E>(s: State<E>, schedule: nat -> Turn<E>, n: nat, m: nat)
    requires Draining(s) && n <= m
    ensures AtMost(Work(Scheduled(s, schedule, m)), Work(Scheduled(s, schedule, n)))
    decreases m
  {
    if n < m {
      var t := Scheduled(s, schedule, m - 1);
      DrainingStays(s, schedule, m - 1);
      WorkNeverGrows(s, schedule, n, m - 1);
      TurnShrinks(t, TurnStep(t, schedule(m - 1)));
      AtMostTransitive(Work(Scheduled(s, schedule, m)), Work(t), Work(Scheduled(s, schedule, n)));
    }
  }

  lemma FairDrainFrom<E>(s: State<E>, schedule: nat -> Turn<E>, n: nat) returns (end: nat)
    requires Draining(s) && Fair(schedule)
    ensures Scheduled(s, schedule, end).consumer.Finished?
    decreases Work(Scheduled(s, schedule, n)).0, Work(Scheduled(s, schedule, n)).1, Work(Scheduled(s, schedule, n)).2
  {
    assert TurnWillCome(schedule, n);
    var m: nat :| TurnComes(schedule, n, m);
    WorkNeverGrows(s, schedule, n, m);
    DrainingStays(s, schedule, m);
    var t := Scheduled(s, schedule, m);
    if t.consumer.Finished? {
      end := m;
    } else {
      ConsumerCanMove(t);
      WorkShrinks(t, OwnStep(t.consumer));
      assert Scheduled(s, schedule, m + 1) == Do(t, OwnStep(t.consumer));
      end := FairDrainFrom(s, schedule, m + 1);
    }
  }

  /** The drain: after any run with a stop in it, every schedule that keeps giving the
      consumer its turn, whatever the other threads do in between, reaches the end of the
      consumer with exactly the accepted events logged. */
  lemma FairDrain<E>(capacity: nat, steps: seq<Step<E>>, schedule: nat -> Turn<E>) returns (n: nat)
    requires HasStop(steps) && Fair(schedule)
    ensures var s := Run(Initial<E>(capacity), steps);
            var end := Scheduled(s, schedule, n);
            end.consumer.Finished? && end.sink == end.accepted == s.accepted
  {
    var s := Run(Initial<E>(capacity), steps);
    RunInputs(Initial<E>(capacity), steps);
    LogAlways(Initial<E>(capacity), steps);
    ClientsAlways(Initial<E>(capacity), steps);
    n := FairDrainFrom(s, schedule, 0);
    DrainingStays(s, schedule, n);
  }

  // ------------------------------------------------------------ the clients

  predicate Distinct(ids: seq<ClientId>) {
    ids == [] || (ids[0] !in ids[1..] && Distinct(ids[1..]))
  }

  function Rest<E>(c: Consumer<E>): seq<ClientId> {
    if InFanOut(c) then c.rest else []
  }

  // Fan-outs that have reached the client so far, given that it is subscribed.
  function Reached<E>(s: State<E>, id: ClientId): int {
    if id in Rest(s.consumer) then s.fanned - 1 else s.fanned
  }

  // What the client was offered is a piece of the log, starting where it subscribed.
  ghost predicate Placed<E>(c: Client<E>, sink: seq<E>, fanned: nat) {
    && c.start + |c.offered| <= fanned <= |sink|
    && c.offered == sink[c.start..c.start + |c.offered|]
  }

  ghost predicate ClientOk<E>(s: State<E>, id: ClientId)
    requires id in s.table
  {
    var c := s.table[id];
    && Conserved(c)
    && Placed(c, s.sink, s.fanned)
    && (id in s.clients && !c.closed ==> c.start + |c.offered| == Reached(s, id))
  }

  // The client push found open is offered this event next, closed since or not.
  predicate HeadDue<E>(s: State<E>) {
    HasHead(s) && var c := s.table[s.consumer.rest[0]]; c.start + |c.offered| == s.fanned - 1
  }

  ghost predicate ListOk<E>(s: State<E>) {
    && |s.sink| == s.fanned + (if s.consumer.Locking? then 1 else 0)
    && (InFanOut(s.consumer) ==> s.fanned > 0 && s.consumer.event == Last(s.sink))
    && (s.consumer.Locking? ==> s.consumer.event == Last(s.sink))
    && (s.consumer.Offering? ==> s.consumer.rest != [])
    && (s.consumer.Pushing? ==> HeadDue(s))
    && Distinct(Rest(s.consumer))
    && (forall id :: id in s.clients ==> id in s.table)
    && (forall id :: id in Rest(s.consumer) ==> id in s.clients)
    && Distinct(s.clients)
  }

  ghost predicate ClientsOk<E>(s: State<E>) {
    ListOk(s) && forall id :: id in s.table ==> ClientOk(s, id)
  }

  lemma {:induction false} WithoutMembers(ids: seq<ClientId>, id: ClientId)
    ensures forall x :: x in Without(ids, id) <==> x in ids && x != id
    ensures Distinct(ids) ==> Distinct(Without(ids, id))
  {
    if ids != [] {
      WithoutMembers(ids[1..], id);
      assert ids == [ids[0]] + ids[1..];
    }
  }

  lemma {:induction false} DistinctAppend(ids: seq<ClientId>, id: ClientId)
    requires Distinct(ids) && id !in ids
    ensures Distinct(ids + [id])
  {
    if ids != [] {
      DistinctAppend(ids[1..], id);
      assert (ids + [id])[1..] == ids[1..] + [id];
    }
  }

  // The log only grows, so what a client was offered stays a piece of it.
  lemma PlacedFrame<E>(c: Client<E>, sink: seq<E>, sink': seq<E>, fanned: nat, fanned': nat)
    requires Placed(c, sink, fanned) && sink <= sink' && fanned <= fanned' <= |sink'|
    ensures Placed(c, sink', fanned')
  {
    var end := c.start + |c.offered|;
    assert sink'[..|sink|] == sink;
    assert sink'[c.start..end] == sink[c.start..end];
  }

  lemma PlacedOffer<E>(c: Client<E>, sink: seq<E>, fanned: nat)
    requires Placed(c, sink, fanned) && 0 < fanned == |sink|
    requires c.start + |c.offered| == fanned - 1
    ensures Placed(TryOffer(c, Last(sink)), sink, fanned)
  {
    var end := c.start + |c.offered|;
    assert sink[c.start..end + 1] == sink[c.start..end] + [sink[end]];
    assert TryOffer(c, Last(sink)).offered == c.offered + [Last(sink)];
  }

  lemma ClientFrame<E>(s: State<E>, s': State<E>, id: ClientId)
    requires id in s.table && id in s'.table && s'.table[id] == s.table[id] && ClientOk(s, id)
    requires s.sink <= s'.sink && s.fanned <= s'.fanned <= |s'.sink|
    requires id in s'.clients && !s.table[id].closed ==> id in s.clients && Reached(s', id) == Reached(s, id)
    ensures ClientOk(s', id)
  {
    PlacedFrame(s.table[id], s.sink, s'.sink, s.fanned, s'.fanned);
  }

  lemma CheckOne<E>(s: State<E>, id: ClientId)
    requires ClientsOk(s) && Enabled(s, Step<E>.Check) && id in s.table
    ensures ClientOk(Do(s, Step<E>.Check), id)
  {
    assert ClientOk(s, id);
    WithoutMembers(s.clients, s.consumer.rest[0]);
    ClientFrame(s, Do(s, Step<E>.Check), id);
  }

  lemma CheckStep<E>(s: State<E>)
    requires ClientsOk(s) && Enabled(s, Step<E>.Check)
    ensures ClientsOk(Do(s, Step<E>.Check))
  {
    WithoutMembers(s.clients, s.consumer.rest[0]);
    forall id | id in s.table {
      CheckOne(s, id);
    }
  }

  lemma CheckAgainStep<E>(s: State<E>)
    requires ClientsOk(s) && Enabled(s, Step<E>.CheckAgain)
    ensures ClientsOk(Do(s, Step<E>.CheckAgain))
  {
    var s' := Do(s, Step<E>.CheckAgain);
    assert ClientOk(s, s.consumer.rest[0]);
    forall id | id in s.table ensures ClientOk(s', id) {
      assert ClientOk(s, id);
      ClientFrame(s, s', id);
    }
  }

  lemma PushToHead<E>(s: State<E>)
    requires ClientsOk(s) && Enabled(s, Step<E>.PushToClient)
    ensures ClientOk(Do(s, Step<E>.PushToClient), s.consumer.rest[0])
  {
    var id := s.consumer.rest[0];
    assert ClientOk(s, id);
    OfferConserves(s.table[id], s.consumer.event);
    PlacedOffer(s.table[id], s.sink, s.fanned);
  }

  lemma PushToClientStep<E>(s: State<E>)
    requires ClientsOk(s) && Enabled(s, Step<E>.PushToClient)
    ensures ClientsOk(Do(s, Step<E>.PushToClient))
  {
    var s' := Do(s, Step<E>.PushToClient);
    var head := s.consumer.rest[0];
    PushToHead(s);
    forall id | id in s'.table && id != head ensures ClientOk(s', id) {
      assert ClientOk(s, id);
      ClientFrame(s, s', id);
    }
  }

  function WithClient<E>(s: State<E>, id: ClientId, c: Client<E>): State<E> {
    s.(table := s.table[id := c])
  }

  lemma OthersKept<E>(s: State<E>, id: ClientId, c: Client<E>, other: ClientId)
    requires ClientsOk(s) && other in s.table && other != id
    ensures ClientOk(WithClient(s, id, c), other)
  {
    assert ClientOk(s, other);
    ClientFrame(s, WithClient(s, id, c), other);
  }

  lemma ListKept<E>(s: State<E>, id: ClientId, c: Client<E>)
    requires ListOk(s) && id in s.table && c.offered == s.table[id].offered && c.start == s.table[id].start
    ensures ListOk(WithClient(s, id, c))
  {
  }

  // One client's own step: it may close or lose queued items, but is offered nothing.
  lemma ClientOwnStep<E>(s: State<E>, id: ClientId, c: Client<E>)
    requires ClientsOk(s) && id in s.table && Conserved(c)
    requires c.offered == s.table[id].offered && c.start == s.table[id].start && (s.table[id].closed ==> c.closed)
    ensures ClientsOk(WithClient(s, id, c))
  {
    assert ClientOk(s, id);
    ListKept(s, id, c);
    forall other | other in s.table && other != id {
      OthersKept(s, id, c, other);
    }
  }

  lemma CloseStep<E>(s: State<E>, id: ClientId, shutdown: bool)
    requires ClientsOk(s) && id in s.table
    ensures ClientsOk(Do(s, CloseClient(id, shutdown)))
  {
    assert ClientOk(s, id);
    CloseConserves(s.table[id], shutdown);
    ClientOwnStep(s, id, Close(s.table[id], shutdown));
  }

  lemma TakeStep<E>(s: State<E>, id: ClientId)
    requires ClientsOk(s) && id in s.table
    ensures ClientsOk(Do(s, WriterTakes(id)))
  {
    assert ClientOk(s, id);
    TakeConserves(s.table[id]);
    ClientOwnStep(s, id, Take(s.table[id]));
  }

  lemma MembershipStep<E>(s: State<E>, id: ClientId, step: Step<E>)
    requires ClientsOk(s) && Enabled(s, step) && (step == Subscribe(id) || step == Unsubscribe(id))
    ensures ClientsOk(Do(s, step))
  {
    var s' := Do(s, step);
    WithoutMembers(s.clients, id);
    if step.Subscribe? {
      DistinctAppend(s.clients, id);
      NewConserved<E>(s.fanned);
    }
    forall other | other in s'.table ensures ClientOk(s', other) {
      if other in s.table {
        assert ClientOk(s, other);
        ClientFrame(s, s', other);
      }
    }
  }

  lemma ConsumerPhaseStep<E>(s: State<E>, step: Step<E>)
    requires ClientsOk(s) && Enabled(s, step) && (step.Pop? || step.Log? || step.Lock? || step.Unlock?)
    ensures ClientsOk(Do(s, step))
  {
    var s' := Do(s, step);
    forall id | id in s'.table ensures ClientOk(s', id) {
      assert ClientOk(s, id);
      if !step.Lock? {
        ClientFrame(s, s', id);
      }
    }
  }

  lemma QuietStep<E>(s: State<E>, s': State<E>)
    requires ClientsOk(s)
    requires s'.sink == s.sink && s'.consumer == s.consumer && s'.fanned == s.fanned
    requires s'.clients == s.clients && s'.table == s.table
    ensures ClientsOk(s')
  {
    forall id | id in s'.table ensures ClientOk(s', id) {
      assert ClientOk(s, id);
    }
  }

  lemma ClientsStep<E>(s: State<E>, step: Step<E>)
    requires ClientsOk(s) && Enabled(s, step)
    ensures ClientsOk(Do(s, step))
  {
    match step
    case Check => CheckStep(s);
    case CheckAgain => CheckAgainStep(s);
    case PushToClient => PushToClientStep(s);
    case Subscribe(id) => MembershipStep(s, id, step);
    case Unsubscribe(id) => MembershipStep(s, id, step);
    case CloseClient(id, shutdown) => CloseStep(s, id, shutdown);
    case WriterTakes(id) => TakeStep(s, id);
    case Pop => ConsumerPhaseStep(s, step);
    case Log => ConsumerPhaseStep(s, step);
    case Lock => ConsumerPhaseStep(s, step);
    case Unlock => ConsumerPhaseStep(s, step);
    case _ => QuietStep(s, Do(s, step));
  }

  lemma {:induction false} ClientsAlways<E>(s: State<E>, steps: seq<Step<E>>)
    requires ClientsOk(s)
    ensures ClientsOk(Run(s, steps))
    decreases |steps|
  {
    if |steps| > 0 {
      if Enabled(s, steps[0]) {
        ClientsStep(s, steps[0]);
        ClientsAlways(Do(s, steps[0]), steps[1..]);
      } else {
        ClientsAlways(s, steps[1..]);
      }
    }
  }

  /** Fan-out conservation, for every client that ever subscribed: offers made while it is
      open are accepted or dropped; they are the events logged from its subscription on,
      with none left out while it stays subscribed and open; what it accepted keeps their
      order; and its writer takes a prefix of that. */
  lemma FanOutConservation<E>(capacity: nat, steps: seq<Step<E>>, id: ClientId)
    requires id in Run(Initial<E>(capacity), steps).table
    ensures var s := Run(Initial<E>(capacity), steps);
            var c := s.table[id];
            && |c.offered| == |c.accepted| + c.dropped
            && c.start + |c.offered| <= |s.sink| && c.offered == s.sink[c.start..c.start + |c.offered|]
            && (id in s.clients && !c.closed && MutexFree(s) ==> c.start + |c.offered| == s.fanned)
            && Subsequence(c.accepted, c.offered)
            && c.taken <= c.accepted
  {
    ClientsAlways(Initial<E>(capacity), steps);
    var s := Run(Initial<E>(capacity), steps);
    assert ClientOk(s, id);
  }

  // ------------------------------------------------------------ being subscribed

  predicate Leaves<E>(step: Step<E>, id: ClientId) {
    (step.Unsubscribe? || step.CloseClient?) && step.id == id
  }

  ghost predicate Subscribed<E>(s: State<E>, id: ClientId, start: nat) {
    && ClientsOk(s) && start <= s.fanned
    && id in s.clients && id in s.table && !s.table[id].closed && s.table[id].start == start
  }

  lemma SubscribedStep<E>(s: State<E>, step: Step<E>, id: ClientId, start: nat)
    requires Subscribed(s, id, start) && Enabled(s, step) && !Leaves(step, id)
    ensures Subscribed(Do(s, step), id, start)
  {
    ClientsStep(s, step);
    match step
    case Check => WithoutMembers(s.clients, s.consumer.rest[0]);
    case Unsubscribe(x) => WithoutMembers(s.clients, x);
    case _ =>
  }

  lemma {:induction false} StaysSubscribed<E>(s: State<E>, steps: seq<Step<E>>, id: ClientId, start: nat)
    requires Subscribed(s, id, start)
    requires forall i :: 0 <= i < |steps| ==> !Leaves(steps[i], id)
    ensures Subscribed(Run(s, steps), id, start)
    decreases |steps|
  {
    if |steps| > 0 {
      if Enabled(s, steps[0]) {
        SubscribedStep(s, steps[0], id, start);
        StaysSubscribed(Do(s, steps[0]), steps[1..], id, start);
      } else {
        StaysSubscribed(s, steps[1..], id, start);
      }
    }
  }

  /** A subscriber that neither unsubscribes nor closes stays on the list, open, and is
      offered every event whose fan-out began since, in order, and no other. */
  lemma SubscriberIsServed<E>(capacity: nat, steps: seq<Step<E>>, id: ClientId, more: seq<Step<E>>)
    requires Enabled(Run(Initial<E>(capacity), steps), Subscribe(id))
    requires forall i :: 0 <= i < |more| ==> !Leaves(more[i], id)
    ensures var s := Run(Initial<E>(capacity), steps);
            var e := Run(Do(s, Subscribe(id)), more);
            && id in e.clients && id in e.table && !e.table[id].closed
            && s.fanned <= e.fanned <= |e.sink|
            && (MutexFree(e) ==> e.table[id].offered == e.sink[s.fanned..e.fanned])
  {
    var s := Run(Initial<E>(capacity), steps);
    ClientsAlways(Initial<E>(capacity), steps);
    ClientsStep(s, Subscribe(id));
    StaysSubscribed(Do(s, Subscribe(id)), more, id, s.fanned);
    SubscribedMeans(Run(Do(s, Subscribe(id)), more), id, s.fanned);
  }

  lemma SubscribedMeans<E>(e: State<E>, id: ClientId, start: nat)
    requires Subscribed(e, id, start)
    ensures start <= e.fanned <= |e.sink|
    ensures MutexFree(e) ==> e.table[id].offered == e.sink[start..e.fanned]
  {
    assert ClientOk(e, id);
  }

  // The consumer is between push's own test of this client and its try_push.
  predicate PushDue<E>(s: State<E>, id: ClientId) {
    s.consumer.Pushing? && s.consumer.rest != [] && s.consumer.rest[0] == id
  }

  // Off the list, or closed with no push under way.
  predicate OutOfReach<E>(s: State<E>, id: ClientId) {
    id in s.table && (id !in s.clients || (s.table[id].closed && !PushDue(s, id)))
  }

  predicate HeadListed<E>(s: State<E>) {
    InFanOut(s.consumer) && s.consumer.rest != [] ==> s.consumer.rest[0] in s.clients
  }

  lemma FanOutOutOfReach<E>(s: State<E>, step: Step<E>, id: ClientId)
    requires OutOfReach(s, id) && HeadListed(s) && Enabled(s, step) && (step.Check? || step.CheckAgain? || step.PushToClient?)
    ensures var t := Do(s, step);
            OutOfReach(t, id) && t.table[id].offered == s.table[id].offered && (id !in s.clients ==> id !in t.clients)
  {
    WithoutMembers(s.clients, s.consumer.rest[0]);
  }

  lemma StepOutOfReach<E>(s: State<E>, step: Step<E>, id: ClientId)
    requires OutOfReach(s, id) && HeadListed(s) && Enabled(s, step)
    ensures var t := Do(s, step);
            OutOfReach(t, id) && t.table[id].offered == s.table[id].offered && (id !in s.clients ==> id !in t.clients)
  {
    if step.Check? || step.CheckAgain? || step.PushToClient? {
      FanOutOutOfReach(s, step, id);
    } else if step.Unsubscribe? {
      WithoutMembers(s.clients, step.id);
    }
  }

  ghost predicate Gone<E>(s: State<E>, id: ClientId, offered: seq<E>) {
    ClientsOk(s) && OutOfReach(s, id) && s.table[id].offered == offered
  }

  lemma GoneStep<E>(s: State<E>, step: Step<E>, id: ClientId, offered: seq<E>)
    requires Gone(s, id, offered) && Enabled(s, step)
    ensures Gone(Do(s, step), id, offered)
    ensures id !in s.clients ==> id !in Do(s, step).clients
  {
    assert HeadListed(s) by {
      assert InFanOut(s.consumer) && s.consumer.rest != [] ==> s.consumer.rest[0] in Rest(s.consumer);
    }
    StepOutOfReach(s, step, id);
    ClientsStep(s, step);
  }

  lemma {:induction false} StaysGone<E>(s: State<E>, steps: seq<Step<E>>, id: ClientId, offered: seq<E>)
    requires Gone(s, id, offered)
    ensures Gone(Run(s, steps), id, offered)
    ensures id !in s.clients ==> id !in Run(s, steps).clients
    decreases |steps|
  {
    if |steps| > 0 {
      if Enabled(s, steps[0]) {
        GoneStep(s, steps[0], id, offered);
        StaysGone(Do(s, steps[0]), steps[1..], id, offered);
      } else {
        StaysGone(s, steps[1..], id, offered);
      }
    }
  }

  /** After unsubscribing, a client is off the list for good and is offered nothing more. */
  lemma UnsubscribedGetsNothing<E>(capacity: nat, steps: seq<Step<E>>, id: ClientId, more: seq<Step<E>>)
    requires var s := Run(Initial<E>(capacity), steps); Enabled(s, Unsubscribe(id)) && id in s.table
    ensures var s := Run(Initial<E>(capacity), steps);
            var e := Run(Do(s, Unsubscribe(id)), more);
            id !in e.clients && id in e.table && e.table[id].offered == s.table[id].offered
  {
    var s := Run(Initial<E>(capacity), steps);
    ClientsAlways(Initial<E>(capacity), steps);
    ClientsStep(s, Unsubscribe(id));
    WithoutMembers(s.clients, id);
    StaysGone(Do(s, Unsubscribe(id)), more, id, s.table[id].offered);
  }

  lemma {:induction false} ClosedPushEnds<E>(s: State<E>, steps: seq<Step<E>>, id: ClientId)
    requires ClientsOk(s) && id in s.table && s.table[id].closed && PushDue(s, id)
    ensures var e := Run(s, steps);
            id in e.table && (e.table[id].offered == s.table[id].offered ||
                              e.table[id].offered == s.table[id].offered + [s.consumer.event])
    decreases |steps|
  {
    if |steps| > 0 {
      if !Enabled(s, steps[0]) {
        ClosedPushEnds(s, steps[1..], id);
      } else {
        var next := Do(s, steps[0]);
        ClientsStep(s, steps[0]);
        if steps[0].PushToClient? {
          StaysGone(next, steps[1..], id, next.table[id].offered);
        } else {
          ClosedPushEnds(next, steps[1..], id);
        }
      }
    }
  }

  /** After closing, by shutdown or by its writer, a client is offered nothing more, except
      the one event whose push had already found it open. */
  lemma ClosedGetsNothing<E>(capacity: nat, steps: seq<Step<E>>, id: ClientId, shutdown: bool, more: seq<Step<E>>)
    requires id in Run(Initial<E>(capacity), steps).table
    ensures var s := Run(Initial<E>(capacity), steps);
            var e := Run(Do(s, CloseClient(id, shutdown)), more);
            && id in e.table
            && (e.table[id].offered == s.table[id].offered ||
                (PushDue(s, id) && e.table[id].offered == s.table[id].offered + [s.consumer.event]))
  {
    var s := Run(Initial<E>(capacity), steps);
    ClientsAlways(Initial<E>(capacity), steps);
    var closed := Do(s, CloseClient(id, shutdown));
    ClientsStep(s, CloseClient(id, shutdown));
    CloseConserves(s.table[id], shutdown) by {
      assert ClientOk(s, id);
    }
    if PushDue(s, id) {
      ClosedPushEnds(closed, more, id);
    } else {
      StaysGone(closed, more, id, s.table[id].offered);
    }
  }

  // A client closed before the fan-out numbered `since` began: that fan-out drops it.
  predicate Dropping<E>(s: State<E>, id: ClientId, since: nat) {
    && id in s.table && s.table[id].closed && since <= s.fanned
    && (s.fanned == since ==> MutexFree(s))
    && (s.fanned > since && id in s.clients ==>
          id in Rest(s.consumer) && (s.consumer.Fanning? || s.consumer.rest[0] != id))
  }

  lemma FanOutDropping<E>(s: State<E>, step: Step<E>, id: ClientId, since: nat)
    requires Dropping(s, id, since) && Enabled(s, step) && (step.Check? || step.CheckAgain? || step.PushToClient?)
    ensures Dropping(Do(s, step), id, since)
  {
    WithoutMembers(s.clients, s.consumer.rest[0]);
    assert s.consumer.rest == [s.consumer.rest[0]] + s.consumer.rest[1..];
  }

  lemma DroppingStep<E>(s: State<E>, step: Step<E>, id: ClientId, since: nat)
    requires Dropping(s, id, since) && Enabled(s, step)
    ensures Dropping(Do(s, step), id, since)
  {
    if step.Check? || step.CheckAgain? || step.PushToClient? {
      FanOutDropping(s, step, id, since);
    } else if step.Unsubscribe? {
      WithoutMembers(s.clients, step.id);
    }
  }

  lemma {:induction false} StaysDropping<E>(s: State<E>, steps: seq<Step<E>>, id: ClientId, since: nat)
    requires Dropping(s, id, since)
    ensures Dropping(Run(s, steps), id, since)
    decreases |steps|
  {
    if |steps| > 0 {
      if Enabled(s, steps[0]) {
        DroppingStep(s, steps[0], id, since);
        StaysDropping(Do(s, steps[0]), steps[1..], id, since);
      } else {
        StaysDropping(s, steps[1..], id, since);
      }
    }
  }

  /** A client closed while no fan-out is under way is off the list after the next one. */
  lemma ClosedLeavesList<E>(capacity: nat, steps: seq<Step<E>>, id: ClientId, more: seq<Step<E>>)
    requires var s := Run(Initial<E>(capacity), steps); MutexFree(s) && id in s.table && s.table[id].closed
    ensures var s := Run(Initial<E>(capacity), steps);
            var e := Run(s, more);
            e.fanned > s.fanned && MutexFree(e) ==> id !in e.clients
  {
    var s := Run(Initial<E>(capacity), steps);
    StaysDropping(s, more, id, s.fanned);
  }

  // The writer taking n times in a row.
  function WriterRuns<E>(id: ClientId, n: nat): seq<Step<E>> {
    if n == 0 then [] else [WriterTakes(id)] + WriterRuns(id, n - 1)
  }

  lemma {:induction false} WriterRun<E>(s: State<E>, id: ClientId, n: nat)
    requires id in s.table
    ensures Run(s, WriterRuns<E>(id, n)) == WithClient(s, id, TakeTimes(s.table[id], n))
    decreases n
  {
    if n == 0 {
      assert s.table[id := s.table[id]] == s.table;
    } else {
      var step: Step<E> := WriterTakes(id);
      assert WriterRuns<E>(id, n)[1..] == WriterRuns<E>(id, n - 1);
      WriterRun(Do(s, step), id, n - 1);
    }
  }

  /** A writer left alone takes everything that was accepted, in order. */
  lemma WriterCatchesUp<E>(s: State<E>, id: ClientId)
    requires ClientsOk(s) && id in s.table
    ensures var e := Run(s, WriterRuns<E>(id, |s.table[id].queue.items|));
            id in e.table && e.table[id].taken == e.table[id].accepted == s.table[id].accepted
  {
    assert ClientOk(s, id);
    WriterRun(s, id, |s.table[id].queue.items|);
    TakesAll(s.table[id]);
  }

  lemma {:induction false} RunAppend<E>(s: State<E>, steps: seq<Step<E>>, step: Step<E>)
    requires Enabled(Run(s, steps), step)
    ensures Run(s, steps + [step]) == Do(Run(s, steps), step)
    decreases |steps|
  {
    if |steps| == 0 {
      assert steps + [step] == [step];
    } else {
      RunAppend(if Enabled(s, steps[0]) then Do(s, steps[0]) else s, steps[1..], step);
      assert (steps + [step])[1..] == steps[1..] + [step];
    }
  }

  // One step more, leading from `here` to `next`.
  lemma Then<E>(s: State<E>, steps: seq<Step<E>>, here: State<E>, step: Step<E>, next: State<E>)
    returns (steps': seq<Step<E>>)
    requires Run(s, steps) == here && Enabled(here, step) && Do(here, step) == next
    ensures Run(s, steps') == next
  {
    RunAppend(s, steps, step);
    steps' := steps + [step];
  }

  // Nothing in the queue, one subscriber.
  function Quiet<E>(capacity: nat, log: seq<E>, consumer: Consumer<E>, fanned: nat, id: ClientId, c: Client<E>): State<E> {
    State(Queue([], capacity, false), None, log, log, log, consumer, fanned, [id], map[id := c])
  }

  // An event on its way to the log.
  lemma EventToLog<E>(s: State<E>, steps: seq<Step<E>>, capacity: nat, id: ClientId, c: Client<E>, e: E)
    returns (steps': seq<Step<E>>)
    requires capacity >= 2 && Run(s, steps) == Quiet(capacity, [], Popping, 0, id, c)
    ensures Run(s, steps') == Quiet(capacity, [e], Locking(e), 0, id, c)
  {
    var idle := Quiet(capacity, [], Popping, 0, id, c);
    var pushing := idle.(pending := Some(e), emitted := [e]);
    var queued := idle.(queue := Queue([e], capacity, false), emitted := [e], accepted := [e]);
    var logging := idle.(consumer := Logging(e), emitted := [e], accepted := [e]);
    steps' := Then(s, steps, idle, Emit(e), pushing);
    steps' := Then(s, steps', pushing, PushReturns, queued);
    assert [e][1..] == [];
    steps' := Then(s, steps', queued, Pop, logging);
    steps' := Then(s, steps', logging, Log, Quiet(capacity, [e], Locking(e), 0, id, c));
  }

  // From the log to the client.
  lemma LogToClient<E>(s: State<E>, steps: seq<Step<E>>, capacity: nat, id: ClientId, c: Client<E>, e: E)
    returns (steps': seq<Step<E>>)
    requires Run(s, steps) == Quiet(capacity, [e], Locking(e), 0, id, c) && !c.closed
    ensures Run(s, steps') == Quiet(capacity, [e], Fanning(e, []), 1, id, TryOffer(c, e))
  {
    var log, d := [e], TryOffer(c, e);
    var fanning := Quiet(capacity, log, Fanning(e, [id]), 1, id, c);
    var offering := Quiet(capacity, log, Offering(e, [id]), 1, id, c);
    var pushing := Quiet(capacity, log, Pushing(e, [id]), 1, id, c);
    steps' := Then(s, steps, Quiet(capacity, log, Locking(e), 0, id, c), Lock, fanning);
    steps' := Then(s, steps', fanning, Check, offering);
    steps' := Then(s, steps', offering, CheckAgain, pushing);
    assert map[id := c][id := d] == map[id := d] && [id][1..] == [];
    steps' := Then(s, steps', pushing, PushToClient, Quiet(capacity, log, Fanning(e, []), 1, id, d));
  }

  /** A whole trip: a client subscribes, an event is emitted, and its writer takes it. */
  lemma EventReachesSubscriber<E>(capacity: nat, id: ClientId, e: E) returns (steps: seq<Step<E>>)
    requires capacity >= 2
    ensures var s := Run(Initial<E>(capacity), steps);
            && s.sink == [e] && MutexFree(s)
            && id in s.table && s.table[id].taken == [e] && s.table[id].dropped == 0
  {
    var s, c := Initial<E>(capacity), NewClient<E>(0);
    var d := TryOffer(c, e);
    NewConserved<E>(0);
    OfferConserves(c, e);
    assert d.queue.items == [e] && d.dropped == 0 && Take(d).taken == [e];
    steps := Then(s, [], s, Subscribe(id), Quiet(capacity, [], Popping, 0, id, c));
    steps := EventToLog(s, steps, capacity, id, c, e);
    steps := LogToClient(s, steps, capacity, id, c, e);
    steps := Then(s, steps, Quiet(capacity, [e], Fanning(e, []), 1, id, d), Unlock, Quiet(capacity, [e], Popping, 1, id, d));
    assert map[id := d][id := Take(d)] == map[id := Take(d)];
    steps := Then(s, steps, Quiet(capacity, [e], Popping, 1, id, d), WriterTakes(id), Quiet(capacity, [e], Popping, 1, id, Take(d)));
  }

  // ------------------------------------------------------------ non-interference

  function EraseConsumer<E>(c: Consumer<E>, id: ClientId): Consumer<E> {
    match c
    case Fanning(e, rest) => Fanning(e, Without(rest, id))
    case Offering(e, rest) =>
      if rest != [] && rest[0] == id then Fanning(e, Without(rest, id)) else Offering(e, Without(rest, id))
    case Pushing(e, rest) =>
      if rest != [] && rest[0] == id then Fanning(e, Without(rest, id)) else Pushing(e, Without(rest, id))
    case _ => c
  }

  /** The state as if the client had never subscribed. */
  function Erase<E>(s: State<E>, id: ClientId): State<E> {
    s.(consumer := EraseConsumer(s.consumer, id), clients := Without(s.clients, id), table := s.table - {id})
  }

  // The steps that only this client or its presence in the list account for.
  predicate Concerns<E>(s: State<E>, step: Step<E>, id: ClientId) {
    match step
    case Check => HasHead(s) && s.consumer.rest[0] == id
    case CheckAgain => HasHead(s) && s.consumer.rest[0] == id
    case PushToClient => HasHead(s) && s.consumer.rest[0] == id
    case Subscribe(x) => x == id
    case Unsubscribe(x) => x == id
    case CloseClient(x, _) => x == id
    case WriterTakes(x) => x == id
    case _ => false
  }

  lemma {:induction false} WithoutTwice(ids: seq<ClientId>, a: ClientId, b: ClientId)
    ensures Without(Without(ids, a), b) == Without(Without(ids, b), a)
    ensures Without(Without(ids, a), a) == Without(ids, a)
  {
    if ids != [] {
      WithoutTwice(ids[1..], a, b);
    }
  }

  lemma {:induction false} WithoutAppend(ids: seq<ClientId>, x: ClientId, id: ClientId)
    ensures Without(ids + [x], id) == Without(ids, id) + (if x == id then [] else [x])
  {
    if ids == [] {
      assert ids + [x] == [x];
    } else {
      WithoutAppend(ids[1..], x, id);
      assert (ids + [x])[1..] == ids[1..] + [x];
    }
  }

  lemma ConcernedStepVanishes<E>(s: State<E>, step: Step<E>, id: ClientId)
    requires Enabled(s, step) && Concerns(s, step, id)
    ensures Erase(Do(s, step), id) == Erase(s, id)
  {
    WithoutTwice(s.clients, id, id);
    WithoutAppend(s.clients, id, id);
    assert Do(s, step).table - {id} == s.table - {id};
  }

  lemma OtherClientStep<E>(s: State<E>, step: Step<E>, id: ClientId)
    requires Enabled(s, step) && !Concerns(s, step, id)
    requires step.PushToClient? || step.Subscribe? || step.CloseClient? || step.WriterTakes?
    ensures Enabled(Erase(s, id), step) && Do(Erase(s, id), step) == Erase(Do(s, step), id)
  {
    var other := if step.PushToClient? then s.consumer.rest[0] else step.id;
    WithoutAppend(s.clients, other, id);
    assert other != id;
    assert Do(Erase(s, id), step).table == Do(s, step).table - {id};
  }

  lemma OtherStep<E>(s: State<E>, step: Step<E>, id: ClientId)
    requires Enabled(s, step) && !Concerns(s, step, id)
    ensures Enabled(Erase(s, id), step) && Do(Erase(s, id), step) == Erase(Do(s, step), id)
  {
    match step
    case Check => WithoutTwice(s.clients, id, s.consumer.rest[0]);
    case Unsubscribe(x) => WithoutTwice(s.clients, id, x);
    case PushToClient => OtherClientStep(s, step, id);
    case Subscribe(_) => OtherClientStep(s, step, id);
    case CloseClient(_, _) => OtherClientStep(s, step, id);
    case WriterTakes(_) => OtherClientStep(s, step, id);
    case _ =>
  }

  predicate Mentions<E>(step: Step<E>, id: ClientId) {
    (step.Subscribe? || step.Unsubscribe? || step.CloseClient? || step.WriterTakes?) && step.id == id
  }

  lemma {:induction false} ErasedRun<E>(s: State<E>, steps: seq<Step<E>>, id: ClientId) returns (steps': seq<Step<E>>)
    ensures Run(Erase(s, id), steps') == Erase(Run(s, steps), id)
    ensures forall i :: 0 <= i < |steps'| ==> !Mentions(steps'[i], id)
    decreases |steps|
  {
    if |steps| == 0 {
      steps' := [];
    } else if !Enabled(s, steps[0]) {
      steps' := ErasedRun(s, steps[1..], id);
    } else {
      var rest := ErasedRun(Do(s, steps[0]), steps[1..], id);
      if Concerns(s, steps[0], id) {
        ConcernedStepVanishes(s, steps[0], id);
        steps' := rest;
      } else {
        OtherStep(s, steps[0], id);
        steps' := [steps[0]] + rest;
        assert steps'[1..] == rest;
      }
    }
  }

  /** A client, however slow, changes nothing for anybody else: every run has a twin in
      which it never subscribes, with the same log, the same events accepted, and every
      other client in the same state. */
  lemma NonInterference<E>(capacity: nat, steps: seq<Step<E>>, id: ClientId) returns (twin: seq<Step<E>>)
    ensures forall i :: 0 <= i < |twin| ==> !Mentions(twin[i], id)
    ensures var s, t := Run(Initial<E>(capacity), steps), Run(Initial<E>(capacity), twin);
            && t.sink == s.sink && t.accepted == s.accepted && t.queue == s.queue
            && t.table == s.table - {id}
  {
    twin := ErasedRun(Initial<E>(capacity), steps, id);
    assert Erase(Initial<E>(capacity), id) == Initial<E>(capacity);
  }
}
