/** src/controller.cpp: emit_event and consumer_loop as the code of one thread, over the
    queue object. Pipeline interleaves the same actions with those of the other threads. */
module ConsumerLoops {
  import opened Common
  import opened FileIdentity
  import opened Policies
  import opened DecisionEngine
  import opened EventQueue
  import opened StreamClient

  /** One event offered to every client still open; closed clients leave the list. */
  function FanOut<E>(clients: seq<Client<E>>, e: E): seq<Client<E>> {
    if clients == [] then []
    else if clients[0].closed then FanOut(clients[1..], e)
    else [Offer(clients[0], e)] + FanOut(clients[1..], e)
  }

  function FanOutAll<E>(clients: seq<Client<E>>, events: seq<E>): seq<Client<E>>
    decreases |events|
  {
    if |events| == 0 then clients else FanOutAll(FanOut(clients, events[0]), events[1..])
  }

  function OpenClients<E>(clients: seq<Client<E>>): seq<Client<E>> {
    if clients == [] then []
    else (if clients[0].closed then [] else [clients[0]]) + OpenClients(clients[1..])
  }

  lemma {:induction false} FanOutReachesOpen<E>(clients: seq<Client<E>>, e: E)
    ensures var open := OpenClients(clients);
            && |FanOut(clients, e)| == |open|
            && forall i :: 0 <= i < |open| ==> FanOut(clients, e)[i] == Offer(open[i], e) && !FanOut(clients, e)[i].closed
    ensures OpenClients(FanOut(clients, e)) == FanOut(clients, e)
  {
    if clients != [] {
      FanOutReachesOpen(clients[1..], e);
      var tail := FanOut(clients[1..], e);
      assert !clients[0].closed ==> ([Offer(clients[0], e)] + tail)[1..] == tail;
    }
  }

  /** Client by client, in order: closed ones go, and every other one is offered the event. */
  lemma {:induction false} FanOutParts<E>(a: seq<Client<E>>, b: seq<Client<E>>, e: E)
    ensures FanOut(a + b, e) == FanOut(a, e) + FanOut(b, e)
  {
    if a == [] {
      assert a + b == b;
    } else {
      FanOutParts(a[1..], b, e);
      assert (a + b)[0] == a[0] && (a + b)[1..] == a[1..] + b;
      Regroup<Client<E>>(Offer(a[0], e), FanOut(a[1..], e), FanOut(b, e));
    }
  }

  lemma FanOutOne<E>(c: Client<E>, e: E)
    ensures FanOut([c], e) == if c.closed then [] else [Offer(c, e)]
  {
    assert FanOut([c][1..], e) == [];
  }

  lemma Regroup<T>(x: T, a: seq<T>, b: seq<T>)
    ensures [x] + (a + b) == [x] + a + b
  {
  }

  // What a client looks like after being offered a run of events while open.
  ghost predicate Served<E>(before: Client<E>, after: Client<E>, events: seq<E>) {
    && !after.closed
    && after.offered == before.offered + events
    && before.accepted <= after.accepted
    && (Conserved(before) ==> Conserved(after))
  }

  lemma ServedOneMore<E>(before: Client<E>, e: E, after: Client<E>, rest: seq<E>)
    requires !before.closed && Served(Offer(before, e), after, rest)
    ensures Served(before, after, [e] + rest)
  {
    assert before.offered + [e] + rest == before.offered + ([e] + rest);
    if Conserved(before) {
      OfferConserves(before, e);
    }
  }

  /** A fan-out of many events offers each client that was open all of them in order, and
      accounts for every one. */
  lemma {:induction false} FanOutAllServes<E>(clients: seq<Client<E>>, events: seq<E>)
    requires |events| > 0
    ensures var open, after := OpenClients(clients), FanOutAll(clients, events);
            && |after| == |open| && OpenClients(after) == after
            && forall i :: 0 <= i < |open| ==> Served(open[i], after[i], events)
    decreases |events|
  {
    var e, rest := events[0], events[1..];
    var open, next, after := OpenClients(clients), FanOut(clients, e), FanOutAll(clients, events);
    FanOutReachesOpen(clients, e);
    assert events == [e] + rest;
    if |rest| > 0 {
      FanOutAllServes(next, rest);
    }
    forall i | 0 <= i < |open| ensures Served(open[i], after[i], events) {
      OpenAreOpen(clients, i);
      assert next[i] == Offer(open[i], e);
      assert |rest| == 0 ==> next[i].offered + rest == next[i].offered;
      assert Served(next[i], after[i], rest);
      ServedOneMore(open[i], e, after[i], rest);
    }
  }

  lemma {:induction false} OpenAreOpen<E>(clients: seq<Client<E>>, i: nat)
    requires i < |OpenClients(clients)|
    ensures !OpenClients(clients)[i].closed
  {
    if clients[0].closed {
      OpenAreOpen(clients[1..], i);
    } else if i > 0 {
      OpenAreOpen(clients[1..], i - 1);
    }
  }

  lemma OneMore<E>(sink: seq<E>, clients: seq<Client<E>>, left: seq<E>)
    requires |left| > 0
    ensures sink + left == sink + [left[0]] + left[1..]
    ensures FanOutAll(clients, left) == FanOutAll(FanOut(clients, left[0]), left[1..])
  {
  }

  // ------------------------------------------------------------ enrichment

  // Who was running, as both kinds of event carry it.
  datatype TaskInfo = TaskInfo(pid: u32, tgid: u32, uid: u32, gid: u32, comm: string)

  datatype RawEvent = RawEvent(
    task: TaskInfo,
    resource: FileId,
    process: FileId,
    ruleId: u32,
    operation: Operation,
    action: Action,
    reason: Reason)

  datatype SecurityEvent = SecurityEvent(
    timestamp: string,
    task: TaskInfo,
    processPath: string,
    resourcePath: string,
    operation: Operation,
    action: Action,
    reason: Reason,
    ruleId: u32)

  // Identities become paths through the resolver in force; without one, text.
  function NameOf(table: Option<map<FileId, string>>, id: FileId): string {
    if table.Some? then Resolve(table.value, id) else id.ToText()
  }

  // The text that stands for an identity: its path if it has one, else its numbers.
  ghost predicate Names(table: Option<map<FileId, string>>, id: FileId, text: string) {
    if table.Some? && id in table.value then text == table.value[id] else text == id.ToText()
  }

  /** What a logged event says of a kernel event: who ran, which program, which file, and
      what was decided and why. */
  ghost predicate Reports(e: SecurityEvent, raw: RawEvent, time: string, table: Option<map<FileId, string>>) {
    && e.timestamp == time
    && e.task == raw.task
    && Names(table, raw.process, e.processPath)
    && Names(table, raw.resource, e.resourcePath)
    && e.operation == raw.operation
    && e.action == raw.action
    && e.reason == raw.reason
    && e.ruleId == raw.ruleId
  }

  function Enrich(raw: RawEvent, time: string, table: Option<map<FileId, string>>): SecurityEvent {
    SecurityEvent(time, raw.task, NameOf(table, raw.process), NameOf(table, raw.resource),
                  raw.operation, raw.action, raw.reason, raw.ruleId)
  }

  /** Enrichment loses nothing: under an unambiguous table, or none, two raw events that
      look the same afterwards were the same. */
  lemma EnrichInjective(a: RawEvent, b: RawEvent, time: string, table: Option<map<FileId, string>>)
    requires table.Some? ==> InjectiveOnAllIds(table.value)
    requires Enrich(a, time, table) == Enrich(b, time, table)
    ensures a == b
  {
    if table.None? {
      ToTextInjective(a.process, b.process);
      ToTextInjective(a.resource, b.resource);
    }
  }

  // ------------------------------------------------------------ the two threads

  class EventPipeline {
    const queue: SpscQueue<SecurityEvent>
    var resolver: PathResolver?
    var sink: seq<SecurityEvent>
    var clients: seq<Client<SecurityEvent>>

    constructor (queue: SpscQueue<SecurityEvent>)
      ensures this.queue == queue && resolver == null && sink == [] && clients == []
    {
      this.queue := queue;
      resolver := null;
      sink, clients := [], [];
    }

    // The table of the resolver load_policy published last.
    ghost function Table(): Option<map<FileId, string>>
      reads this, resolver
    {
      if resolver == null then None else Some(resolver.table)
    }

    /** emit_event: one snapshot of the resolver names both files, and the enriched event is
        pushed. Its time is given as text. */
    method EmitEvent(raw: RawEvent, time: string) returns (r: PushResult)
      requires queue.Valid()
      modifies queue`head, queue.slots
      ensures queue.Valid() && (queue.Model(), r) == PushSpec(old(queue.Model()), Enrich(raw, time, old(Table())))
      // Accepted unless stopped or full, and then the last item reports the event.
      ensures r == Accepted <==> !old(queue.stop) && !old(queue.Model()).Full()
      ensures r == Accepted ==>
        && |queue.Model().items| > 0
        && queue.Model().items == old(queue.Model()).items + [Last(queue.Model().items)]
        && Reports(Last(queue.Model().items), raw, time, old(Table()))
      ensures r != Accepted ==> queue.Model() == old(queue.Model())
    {
      var snapshot := resolver;
      var processPath, resourcePath := raw.process.ToText(), raw.resource.ToText();
      if snapshot != null {
        processPath := snapshot.ResolveId(raw.process);
        resourcePath := snapshot.ResolveId(raw.resource);
      }
      var ev := SecurityEvent(time, raw.task, processPath, resourcePath,
                              raw.operation, raw.action, raw.reason, raw.ruleId);
      r := queue.Push(ev);
    }

    // The inner loop, with clients_mu_ held.
    method FanOutEvent(e: SecurityEvent)
      modifies this`clients
      ensures clients == FanOut(old(clients), e)
    {
      var it := 0;
      while it < |clients|
        invariant it <= |clients|
        invariant FanOut(old(clients), e) == clients[..it] + FanOut(clients[it..], e)
        decreases |clients| - it
      {
        if clients[it].closed {
          assert (clients[..it] + clients[it + 1..])[..it] == clients[..it];
          assert (clients[..it] + clients[it + 1..])[it..] == clients[it..][1..];
          clients := clients[..it] + clients[it + 1..];
        } else {
          var pushed := clients[it := Offer(clients[it], e)];
          assert pushed[..it + 1] == clients[..it] + [Offer(clients[it], e)];
          assert pushed[it + 1..] == clients[it..][1..];
          clients := pushed;
          it := it + 1;
        }
      }
    }

    /** consumer_loop once the queue is stopped: it logs every event left, in order and
        once, offers each to the clients, and ends with the queue empty. */
    method ConsumerLoop()
      requires queue.Valid() && queue.stop
      modifies this`sink, this`clients, queue`tail
      ensures queue.Valid() && queue.Model() == old(queue.Model()).(items := [])
      ensures sink == old(sink) + old(queue.Model()).items
      ensures clients == FanOutAll(old(clients), old(queue.Model()).items)
    {
      ghost var left := queue.Model().items;
      ghost var log, after := sink + left, FanOutAll(clients, left);
      while true
        invariant queue.Valid() && queue.Model() == Queue(left, old(queue.Model()).capacity, true)
        invariant log == sink + left
        invariant after == FanOutAll(clients, left)
        decreases |left|
      {
        var ev := queue.Pop();
        if !ev.Item? {
          break;
        }
        OneMore(sink, clients, left);
        left := left[1..];
        sink := sink + [ev.value];
        FanOutEvent(ev.value);
      }
    }
  }
}
