/** src/daemon.cpp: the newline framing of the control socket, on both sides. */
module Framing {
  import opened Common

  // ------------------------------------------------------------ lines of a stream

  // Where std::string::find('\n') stops.
  function FindNewline(s: string): (r: Option<nat>)
    ensures r.Some? ==> r.value < |s|
  {
    if s == "" then None
    else if s[0] == '\n' then Some(0)
    else
      match FindNewline(s[1..])
      case None => None
      case Some(i) => Some(i + 1)
  }

  lemma {:induction false} FindNewlineMeans(s: string)
    ensures match FindNewline(s)
            case Some(i) => s[i] == '\n' && '\n' !in s[..i]
            case None => '\n' !in s
  {
    if s != "" && s[0] != '\n' {
      FindNewlineMeans(s[1..]);
      assert s == [s[0]] + s[1..];
      assert FindNewline(s).Some? ==> s[..FindNewline(s).value] == [s[0]] + s[1..][..FindNewline(s).value - 1];
    }
  }

  /** The newline-terminated lines of a stream, and what follows the last of them. */
  function Lines(s: string): seq<string>
    decreases |s|
  {
    match FindNewline(s)
    case None => []
    case Some(i) => [s[..i]] + Lines(s[i + 1..])
  }

  function Tail(s: string): string
    decreases |s|
  {
    match FindNewline(s)
    case None => s
    case Some(i) => Tail(s[i + 1..])
  }

  // Each message followed by its newline.
  function Frames(messages: seq<string>): string {
    if messages == [] then "" else messages[0] + "\n" + Frames(messages[1..])
  }

  /** Lines and Tail cut a stream without losing a byte. */
  lemma {:induction false} LinesPartition(s: string)
    ensures Frames(Lines(s)) + Tail(s) == s
    ensures '\n' !in Tail(s) && forall i :: 0 <= i < |Lines(s)| ==> '\n' !in Lines(s)[i]
    decreases |s|
  {
    FindNewlineMeans(s);
    var nl := FindNewline(s);
    if nl.Some? {
      var line, rest := s[..nl.value], s[nl.value + 1..];
      LinesPartition(rest);
      CutAtNewline(s, nl.value, "");
      FramesCons(line, Lines(rest), Tail(rest));
    }
  }

  lemma FramesCons(line: string, lines: seq<string>, tail: string)
    ensures Frames([line] + lines) + tail == line + "\n" + (Frames(lines) + tail)
  {
    assert ([line] + lines)[1..] == lines;
  }

  // Empty lines are skipped.
  function Requests(lines: seq<string>): seq<string> {
    if lines == [] then []
    else (if lines[0] == "" then [] else [lines[0]]) + Requests(lines[1..])
  }

  /** Requests drops exactly the empty lines. */
  lemma {:induction false} RequestsMeans(lines: seq<string>, line: string)
    ensures "" !in Requests(lines)
    ensures "" !in lines ==> Requests(lines) == lines
    ensures Requests(lines + [line]) == if line == "" then Requests(lines) else Requests(lines) + [line]
  {
    if lines == [] {
      assert lines + [line] == [line] && [line][1..] == [];
    } else {
      RequestsMeans(lines[1..], line);
      assert (lines + [line])[1..] == lines[1..] + [line];
      assert lines == [lines[0]] + lines[1..];
      if line != "" && lines[0] != "" {
        assert [lines[0]] + (Requests(lines[1..]) + [line]) == [lines[0]] + Requests(lines[1..]) + [line];
      }
    }
  }

  function Join(chunks: seq<string>): string {
    if chunks == [] then "" else Join(chunks[..|chunks| - 1]) + Last(chunks)
  }

  lemma {:induction false} FirstNewline(line: string, rest: string)
    requires '\n' !in line
    ensures FindNewline(line + "\n" + rest) == Some(|line|)
    decreases |line|
  {
    var s := line + "\n" + rest;
    if line != "" {
      FirstNewline(line[1..], rest);
      assert s[1..] == line[1..] + "\n" + rest && s[0] == line[0];
    }
  }

  lemma LinesCons(line: string, rest: string)
    requires '\n' !in line
    ensures Lines(line + "\n" + rest) == [line] + Lines(rest)
    ensures Tail(line + "\n" + rest) == Tail(rest)
  {
    FirstNewline(line, rest);
    var s := line + "\n" + rest;
    assert s[..|line|] == line && s[|line| + 1..] == rest;
  }

  lemma CutAtNewline(a: string, n: nat, b: string)
    requires n < |a| && a[n] == '\n'
    ensures a == a[..n] + "\n" + a[n + 1..]
    ensures a + b == a[..n] + "\n" + (a[n + 1..] + b)
  {
  }

  // Cutting a stream anywhere leaves its lines alone.
  lemma {:induction false} LinesOfParts(a: string, b: string)
    ensures Lines(a + b) == Lines(a) + Lines(Tail(a) + b)
    ensures Tail(a + b) == Tail(Tail(a) + b)
    decreases |a|
  {
    var nl := FindNewline(a);
    if nl.Some? {
      var line, rest := a[..nl.value], a[nl.value + 1..];
      FindNewlineMeans(a);
      CutAtNewline(a, nl.value, b);
      LinesCons(line, rest);
      LinesCons(line, rest + b);
      LinesOfParts(rest, b);
      Regroup(line, Lines(rest), Lines(Tail(rest) + b));
    }
  }

  lemma Regroup<T>(x: T, a: seq<T>, b: seq<T>)
    ensures [x] + (a + b) == [x] + a + b
  {
  }

  lemma {:induction false} RequestsOfParts(a: seq<string>, b: seq<string>)
    ensures Requests(a + b) == Requests(a) + Requests(b)
  {
    if a == [] {
      assert a + b == b;
    } else {
      RequestsOfParts(a[1..], b);
      assert (a + b)[0] == a[0] && (a + b)[1..] == a[1..] + b;
      var first := if a[0] == "" then [] else [a[0]];
      assert Requests(a + b) == first + Requests(a[1..] + b);
      assert first + (Requests(a[1..]) + Requests(b)) == first + Requests(a[1..]) + Requests(b);
    }
  }

  function RequestsIn(stream: string): seq<string> {
    Requests(Lines(stream))
  }

  lemma RequestsCons(line: string, lines: seq<string>)
    ensures Requests([line] + lines) == if line == "" then Requests(lines) else [line] + Requests(lines)
  {
    assert ([line] + lines)[1..] == lines;
  }

  lemma NextLine(s: string, n: nat)
    requires FindNewline(s) == Some(n)
    ensures RequestsIn(s) == if n == 0 then RequestsIn(s[n + 1..]) else [s[..n]] + RequestsIn(s[n + 1..])
    ensures Tail(s) == Tail(s[n + 1..])
  {
    RequestsCons(s[..n], Lines(s[n + 1..]));
  }

  lemma RequestsSplit(a: string, b: string)
    ensures RequestsIn(a + b) == RequestsIn(a) + RequestsIn(Tail(a) + b)
    ensures Tail(a + b) == Tail(Tail(a) + b)
  {
    LinesOfParts(a, b);
    RequestsOfParts(Lines(a), Lines(Tail(a) + b));
  }

  // ------------------------------------------------------------ receiving

  // Whether the connection goes on after the k-th dispatched line; any pattern of
  // answers handle_line could give.
  type Handler = (nat, string) -> bool

  // The first request whose handler ends the loop.
  ghost predicate EndsAt(requests: seq<string>, goesOn: Handler, k: nat) {
    k < |requests| && !goesOn(k, requests[k]) && forall i :: 0 <= i < k ==> goesOn(i, requests[i])
  }

  ghost predicate AllGoOn(dispatched: seq<string>, goesOn: Handler) {
    |dispatched| == 0 || (goesOn(|dispatched| - 1, Last(dispatched)) && AllGoOn(dispatched[..|dispatched| - 1], goesOn))
  }

  ghost predicate StopsWith(dispatched: seq<string>, goesOn: Handler) {
    |dispatched| > 0 && !goesOn(|dispatched| - 1, Last(dispatched)) && AllGoOn(dispatched[..|dispatched| - 1], goesOn)
  }

  lemma OneMore(dispatched: seq<string>, line: string, goesOn: Handler)
    requires AllGoOn(dispatched, goesOn)
    ensures if goesOn(|dispatched|, line) then AllGoOn(dispatched + [line], goesOn)
            else StopsWith(dispatched + [line], goesOn)
  {
    assert (dispatched + [line])[..|dispatched|] == dispatched;
  }

  lemma {:induction false} AllGoOnMeans(dispatched: seq<string>, goesOn: Handler)
    ensures AllGoOn(dispatched, goesOn) <==> forall k :: 0 <= k < |dispatched| ==> goesOn(k, dispatched[k])
  {
    if |dispatched| > 0 {
      AllGoOnMeans(dispatched[..|dispatched| - 1], goesOn);
    }
  }

  datatype Progress = Progress(dispatched: seq<string>, buf: string, ended: bool)

  // Dispatching the complete lines of a buffer, after `done` earlier requests.
  function Dispatch(done: seq<string>, buf: string, goesOn: Handler): Progress
    decreases |buf|
  {
    match FindNewline(buf)
    case None => Progress(done, buf, false)
    case Some(i) =>
      var line, rest := buf[..i], buf[i + 1..];
      if line == "" then Dispatch(done, rest, goesOn)
      else if !goesOn(|done|, line) then Progress(done + [line], rest, true)
      else Dispatch(done + [line], rest, goesOn)
  }

  // Handing over requests one by one until a handler ends the loop.
  function Handle(done: seq<string>, requests: seq<string>, goesOn: Handler): (seq<string>, bool)
    decreases |requests|
  {
    if requests == [] then (done, false)
    else if !goesOn(|done|, requests[0]) then (done + [requests[0]], true)
    else Handle(done + [requests[0]], requests[1..], goesOn)
  }

  lemma HandleCons(done: seq<string>, x: string, rest: seq<string>, goesOn: Handler)
    ensures Handle(done, [x] + rest, goesOn) == if goesOn(|done|, x) then Handle(done + [x], rest, goesOn) else (done + [x], true)
  {
    assert ([x] + rest)[1..] == rest;
  }

  lemma {:induction false} HandleMeans(done: seq<string>, requests: seq<string>, goesOn: Handler)
    requires AllGoOn(done, goesOn)
    ensures var (dispatched, ended) := Handle(done, requests, goesOn);
            && dispatched <= done + requests
            && (if ended then StopsWith(dispatched, goesOn) else dispatched == done + requests && AllGoOn(dispatched, goesOn))
    decreases |requests|
  {
    if requests == [] {
      assert done + [] == done;
    } else {
      OneMore(done, requests[0], goesOn);
      assert done + requests == done + [requests[0]] + requests[1..];
      if goesOn(|done|, requests[0]) {
        HandleMeans(done + [requests[0]], requests[1..], goesOn);
      }
    }
  }

  lemma {:induction false} DispatchHandles(done: seq<string>, buf: string, goesOn: Handler)
    ensures var p := Dispatch(done, buf, goesOn);
            (p.dispatched, p.ended) == Handle(done, RequestsIn(buf), goesOn) && (p.ended || p.buf == Tail(buf))
    decreases |buf|
  {
    match FindNewline(buf)
    case None =>
    case Some(i) =>
      var line, rest := buf[..i], buf[i + 1..];
      NextLine(buf, i);
      if i == 0 {
        DispatchHandles(done, rest, goesOn);
      } else {
        HandleCons(done, line, RequestsIn(rest), goesOn);
        DispatchHandles(done + [line], rest, goesOn);
      }
  }

  lemma DispatchMeans(done: seq<string>, buf: string, goesOn: Handler)
    requires AllGoOn(done, goesOn)
    ensures var p := Dispatch(done, buf, goesOn);
            && p.dispatched <= done + RequestsIn(buf)
            && (if p.ended then StopsWith(p.dispatched, goesOn)
                else p.dispatched == done + RequestsIn(buf) && AllGoOn(p.dispatched, goesOn) && p.buf == Tail(buf))
  {
    DispatchHandles(done, buf, goesOn);
    HandleMeans(done, RequestsIn(buf), goesOn);
  }

  /** The inner loop of handle_client. */
  method DispatchLines(before: seq<string>, buf0: string, goesOn: Handler)
    returns (dispatched: seq<string>, buf: string, ended: bool)
    ensures Progress(dispatched, buf, ended) == Dispatch(before, buf0, goesOn)
  {
    dispatched, buf := before, buf0;
    var nl := FindNewline(buf);
    while nl.Some?
      invariant nl == FindNewline(buf)
      invariant Dispatch(dispatched, buf, goesOn) == Dispatch(before, buf0, goesOn)
      decreases |buf|
    {
      var line := buf[..nl.value];
      buf := buf[nl.value + 1..];
      if line != "" {
        dispatched := dispatched + [line];
        if !goesOn(|dispatched| - 1, line) {
          return dispatched, buf, true;
        }
      }
      nl := FindNewline(buf);
    }
    ended := false;
  }

  lemma RequestsGrow(a: string, b: string)
    ensures RequestsIn(a) <= RequestsIn(a + b)
  {
    RequestsSplit(a, b);
  }

  lemma JoinStep(chunks: seq<string>, i: nat)
    requires i < |chunks|
    ensures Join(chunks[..i + 1]) == Join(chunks[..i]) + chunks[i]
  {
    assert chunks[..i + 1][..i] == chunks[..i];
  }

  lemma {:induction false} MoreChunks(chunks: seq<string>, i: nat)
    requires i <= |chunks|
    ensures RequestsIn(Join(chunks[..i])) <= RequestsIn(Join(chunks))
    decreases |chunks| - i
  {
    if i == |chunks| {
      assert chunks[..i] == chunks;
    } else {
      JoinStep(chunks, i);
      RequestsGrow(Join(chunks[..i]), chunks[i]);
      MoreChunks(chunks, i + 1);
    }
  }

  lemma StopsThere(dispatched: seq<string>, requests: seq<string>, goesOn: Handler)
    requires dispatched <= requests && StopsWith(dispatched, goesOn)
    ensures EndsAt(requests, goesOn, |dispatched| - 1)
  {
    AllGoOnMeans(dispatched[..|dispatched| - 1], goesOn);
    assert forall k :: 0 <= k < |dispatched| ==> requests[k] == dispatched[k];
  }

  /** handle_client on a stream received in any chunks: the requests of the whole stream in
      order, up to the first handler that ends the loop, and otherwise all of them with
      the unterminated tail kept. */
  method HandleClient(chunks: seq<string>, goesOn: Handler)
    returns (dispatched: seq<string>, buf: string, ended: bool)
    ensures var requests := RequestsIn(Join(chunks));
            if ended then
              |dispatched| > 0 && dispatched <= requests && EndsAt(requests, goesOn, |dispatched| - 1)
            else
              dispatched == requests && buf == Tail(Join(chunks)) && forall k: nat :: !EndsAt(requests, goesOn, k)
  {
    dispatched, buf, ended := [], "", false;
    ghost var received := "";
    for i := 0 to |chunks|
      invariant received == Join(chunks[..i])
      invariant dispatched == RequestsIn(received) && buf == Tail(received) && AllGoOn(dispatched, goesOn)
    {
      RequestsSplit(received, chunks[i]);
      JoinStep(chunks, i);
      DispatchMeans(dispatched, buf + chunks[i], goesOn);
      dispatched, buf, ended := DispatchLines(dispatched, buf + chunks[i], goesOn);
      received := received + chunks[i];
      if ended {
        MoreChunks(chunks, i + 1);
        StopsThere(dispatched, RequestsIn(Join(chunks)), goesOn);
        return;
      }
    }
    assert chunks[..|chunks|] == chunks;
    AllGoOnMeans(dispatched, goesOn);
  }

  // ------------------------------------------------------------ sending

  // What a call to send reports.
  datatype SendResult = Sent(n: nat) | Interrupted | Failed

  datatype WriteOutcome = Complete | Broken | Unfinished

  /** How many bytes the results take, up to the first failure. */
  function Delivered(sends: seq<SendResult>): nat {
    if sends == [] then 0
    else
      match sends[0]
      case Sent(n) => n + Delivered(sends[1..])
      case Interrupted => Delivered(sends[1..])
      case Failed => 0
  }

  lemma {:induction false} DeliveredParts(a: seq<SendResult>, b: seq<SendResult>)
    ensures Delivered(a + b) == if Failed in a then Delivered(a) else Delivered(a) + Delivered(b)
  {
    if a == [] {
      assert a + b == b;
    } else {
      assert (a + b)[1..] == a[1..] + b && a == [a[0]] + a[1..];
      DeliveredParts(a[1..], b);
    }
  }

  // The bytes of the results before the i-th, failures aside.
  function SumOf(sends: seq<SendResult>): nat {
    if sends == [] then 0 else SumOf(sends[..|sends| - 1]) + if Last(sends).Sent? then Last(sends).n else 0
  }

  /** Enough is delivered exactly if some results without a failure among them add up to it. */
  lemma {:induction false} DeliveredMeans(sends: seq<SendResult>, wanted: nat)
    ensures Delivered(sends) >= wanted <==> wanted == 0 || exists k :: EnoughBy(sends, wanted, k)
  {
    var n := Clean(sends);
    CleanDelivers(sends);
    forall k | EnoughBy(sends, wanted, k) ensures Delivered(sends) >= wanted {
      CleanDelivers(sends[..k]);
      assert Clean(sends[..k]) == k by {
        CleanAll(sends[..k]);
      }
      assert sends[..k][..k] == sends[..k];
      DeliveredParts(sends[..k], sends[k..]);
      assert sends == sends[..k] + sends[k..];
    }
    if Delivered(sends) >= wanted {
      assert EnoughBy(sends, wanted, n);
    }
  }

  ghost predicate EnoughBy(sends: seq<SendResult>, wanted: nat, k: int) {
    0 <= k <= |sends| && Failed !in sends[..k] && SumOf(sends[..k]) >= wanted
  }

  // How many results come before the first failure.
  function Clean(sends: seq<SendResult>): (n: nat)
    ensures n <= |sends|
  {
    if sends == [] || sends[0].Failed? then 0 else 1 + Clean(sends[1..])
  }

  lemma {:induction false} CleanAll(sends: seq<SendResult>)
    requires Failed !in sends
    ensures Clean(sends) == |sends|
  {
    if sends != [] {
      CleanAll(sends[1..]);
    }
  }

  lemma {:induction false} CleanDelivers(sends: seq<SendResult>)
    ensures Failed !in sends[..Clean(sends)]
    ensures SumOf(sends[..Clean(sends)]) == Delivered(sends)
  {
    var n := Clean(sends);
    if n > 0 {
      CleanDelivers(sends[1..]);
      assert sends[..n] == [sends[0]] + sends[1..][..n - 1];
      SumFront(sends[0], sends[1..][..n - 1]);
    }
  }

  lemma {:induction false} SumFront(r: SendResult, rest: seq<SendResult>)
    ensures SumOf([r] + rest) == (if r.Sent? then r.n else 0) + SumOf(rest)
  {
    if rest == [] {
      assert [r] + rest == [r] && [r][..0] == [];
    } else {
      var n := |rest| - 1;
      assert ([r] + rest)[..n + 1] == [r] + rest[..n];
      SumFront(r, rest[..n]);
    }
  }

  function AtMost(n: nat, bound: nat): nat {
    if n <= bound then n else bound
  }

  /** write_all against any sequence of send results; Unfinished means the results ran out
      before an end. It completes exactly if the results deliver everything before a
      failure, and what reached the wire is what they deliver. */
  method WriteAll(data: string, sends: seq<SendResult>) returns (outcome: WriteOutcome, wire: string)
    ensures wire == data[..AtMost(Delivered(sends), |data|)]
    ensures outcome == Complete <==> Delivered(sends) >= |data|
    ensures outcome == Broken <==> Delivered(sends) < |data| && Failed in sends
    ensures outcome == Unfinished <==> Delivered(sends) < |data| && Failed !in sends
  {
    var off := 0;
    wire := "";
    var i := 0;
    while off < |data| && i < |sends|
      invariant 0 <= off <= |data| && 0 <= i <= |sends| && wire == data[..off]
      invariant AtMost(Delivered(sends), |data|) == AtMost(off + Delivered(sends[i..]), |data|)
      invariant Failed in sends[i..] <==> Failed in sends
      decreases |sends| - i
    {
      assert sends[i..] == [sends[i]] + sends[i + 1..];
      if sends[i].Failed? {
        return Broken, wire;
      }
      if sends[i].Sent? {
        // send never takes more than it was given.
        var taken := AtMost(sends[i].n, |data| - off);
        assert data[..off + taken] == data[..off] + data[off..off + taken];
        wire := wire + data[off..off + taken];
        off := off + taken;
      }
      i := i + 1;
    }
    outcome := if off == |data| then Complete else Unfinished;
  }

  /** Interrupted and empty sends change neither the outcome nor the wire. */
  lemma IdleSendsChangeNothing(a: seq<SendResult>, idle: SendResult, b: seq<SendResult>)
    requires idle == Interrupted || idle == Sent(0)
    ensures Delivered(a + [idle] + b) == Delivered(a + b)
    ensures Failed in a + [idle] + b <==> Failed in a + b
  {
    DeliveredParts(a, b);
    DeliveredParts(a, [idle] + b);
    assert a + [idle] + b == a + ([idle] + b) && ([idle] + b)[1..] == b;
  }

  lemma {:induction false} FramesParse(messages: seq<string>)
    requires Sendable(messages)
    ensures RequestsIn(Frames(messages)) == messages && Tail(Frames(messages)) == ""
  {
    if messages != [] {
      var line, rest := messages[0], Frames(messages[1..]);
      FramesParse(messages[1..]);
      FirstNewline(line, rest);
      NextLine(line + "\n" + rest, |line|);
      var s := line + "\n" + rest;
      assert s[..|line|] == line && s[|line| + 1..] == rest;
      assert messages == [line] + messages[1..];
    }
  }

  /** Framing round trip: whatever part of the frames of some messages arrived, in any
      chunks, its requests are the first of the messages, whole and in order; all of them,
      with nothing left over, if everything arrived. */
  lemma MessagesArrive(messages: seq<string>, chunks: seq<string>)
    requires Sendable(messages) && Join(chunks) <= Frames(messages)
    ensures RequestsIn(Join(chunks)) <= messages
    ensures Join(chunks) == Frames(messages) ==> RequestsIn(Join(chunks)) == messages && Tail(Join(chunks)) == ""
  {
    var wire := Join(chunks);
    FramesParse(messages);
    PrefixRequests(wire, Frames(messages));
  }

  lemma PrefixRequests(part: string, whole: string)
    requires part <= whole
    ensures RequestsIn(part) <= RequestsIn(whole)
  {
    assert whole == part + whole[|part|..];
    RequestsGrow(part, whole[|part|..]);
  }

  // What a sender may send: requests and responses are one line of JSON each.
  ghost predicate Sendable(messages: seq<string>) {
    forall i :: 0 <= i < |messages| ==> messages[i] != "" && '\n' !in messages[i]
  }

  lemma FramesStep(messages: seq<string>, i: nat)
    requires i < |messages|
    ensures Frames(messages[..i + 1]) == Frames(messages[..i]) + (messages[i] + "\n")
  {
    FramesSplit(messages[..i], [messages[i]]);
    assert messages[..i + 1] == messages[..i] + [messages[i]];
    assert Frames([messages[i]]) == messages[i] + "\n";
  }

  lemma FramesPrefix(messages: seq<string>, i: nat)
    requires i <= |messages|
    ensures Frames(messages[..i]) <= Frames(messages)
  {
    FramesSplit(messages[..i], messages[i..]);
    assert messages == messages[..i] + messages[i..];
  }

  lemma {:induction false} FramesSplit(a: seq<string>, b: seq<string>)
    ensures Frames(a + b) == Frames(a) + Frames(b)
  {
    if a == [] {
      assert a + b == b;
    } else {
      FramesSplit(a[1..], b);
      assert (a + b)[1..] == a[1..] + b;
      assert a[0] + "\n" + (Frames(a[1..]) + Frames(b)) == a[0] + "\n" + Frames(a[1..]) + Frames(b);
    }
  }

  // What the writes put on the wire when the first `sent` completed and the next did not.
  function WireOf(messages: seq<string>, sends: seq<seq<SendResult>>, sent: nat): string
    requires sent <= |messages| == |sends|
  {
    Frames(messages[..sent]) +
    if sent == |messages| then ""
    else (messages[sent] + "\n")[..AtMost(Delivered(sends[sent]), |messages[sent]|)]
  }

  // The first message whose send results do not deliver it with its newline.
  ghost predicate FirstShort(messages: seq<string>, sends: seq<seq<SendResult>>, sent: nat)
    requires |sends| == |messages|
  {
    && sent <= |messages|
    && (forall i :: 0 <= i < sent ==> Delivered(sends[i]) > |messages[i]|)
    && (sent < |messages| ==> Delivered(sends[sent]) <= |messages[sent]|)
  }

  /** One write_all for each message and its newline, until one does not complete; sends[i]
      are the send results the i-th meets. */
  method SendMessages(messages: seq<string>, sends: seq<seq<SendResult>>) returns (sent: nat, wire: string)
    requires |sends| == |messages|
    ensures FirstShort(messages, sends, sent)
    ensures wire == WireOf(messages, sends, sent)
  {
    wire := "";
    sent := 0;
    while sent < |messages|
      invariant sent <= |messages| && wire == Frames(messages[..sent])
      invariant forall i :: 0 <= i < sent ==> Delivered(sends[i]) > |messages[i]|
    {
      FramesStep(messages, sent);
      var frame := messages[sent] + "\n";
      var outcome, part := WriteAll(frame, sends[sent]);
      wire := wire + part;
      if outcome != Complete {
        return;
      }
      assert part == frame;
      sent := sent + 1;
    }
    assert messages[..sent] == messages;
  }

  // An unterminated rest adds no request.
  lemma NoNewlineNoRequest(messages: seq<string>, rest: string)
    requires Sendable(messages) && '\n' !in rest
    ensures RequestsIn(Frames(messages) + rest) == messages
    ensures Tail(Frames(messages) + rest) == rest
  {
    FramesParse(messages);
    RequestsSplit(Frames(messages), rest);
    assert "" + rest == rest;
    FindNewlineMeans(rest);
    assert messages + [] == messages;
  }

  /** The whole way: messages sent with write_all under any send results, cut into any
      chunks on arrival, and dispatched. Exactly the messages before the first whose
      results do not deliver it are dispatched, whole and in order, unless a handler ends
      the loop before; so all of them are when every write is given enough. */
  method Exchange(messages: seq<string>, sends: seq<seq<SendResult>>, cut: string -> seq<string>, goesOn: Handler)
    returns (sent: nat, dispatched: seq<string>, ended: bool)
    requires Sendable(messages) && |sends| == |messages|
    requires forall stream: string :: Join(cut(stream)) == stream
    ensures FirstShort(messages, sends, sent)
    ensures !ended ==> dispatched == messages[..sent] && forall k: nat :: !EndsAt(messages[..sent], goesOn, k)
    ensures ended ==> |dispatched| > 0 && dispatched <= messages[..sent] && EndsAt(messages[..sent], goesOn, |dispatched| - 1)
    ensures (forall i :: 0 <= i < |messages| ==> Delivered(sends[i]) > |messages[i]|) && !ended ==> dispatched == messages
  {
    var wire, buf;
    sent, wire := SendMessages(messages, sends);
    var rest := if sent == |messages| then ""
                else (messages[sent] + "\n")[..AtMost(Delivered(sends[sent]), |messages[sent]|)];
    assert '\n' !in rest by {
      if sent < |messages| {
        assert rest == messages[sent][..|rest|];
      }
    }
    NoNewlineNoRequest(messages[..sent], rest);
    dispatched, buf, ended := HandleClient(cut(wire), goesOn);
    assert messages[..|messages|] == messages;
  }
}
