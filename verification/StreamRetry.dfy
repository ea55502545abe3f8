/** A streaming request: the write callback and the retry loop. */
module StreamRetry {
  import opened Text
  import opened SseParser
  import opened RetryLoop
  import RetryBackoff

  const EVENT_CAP := 32
  const DONE := "[DONE]"

  // ---------------------------------------------------------------------------------------------
  // What the network does
  // ---------------------------------------------------------------------------------------------

  /** One `curl_easy_perform`: the pieces of the body in the order of the write callback, and the end. */
  datatype Perform = Perform(writes: seq<string>, rc: Curl, status: int, retryAfterMs: int)

  /** One attempt: as configured, and without the proxy. */
  datatype Try = Try(first: Perform, direct: Perform)

  datatype Config = Config(policy: Policy, captureLimit: nat, tuning: RetryBackoff.Tuning)

  // ---------------------------------------------------------------------------------------------
  // The write callback
  // ---------------------------------------------------------------------------------------------

  /** The non-empty texts of events other than the end mark: what the callback gets. */
  function Chunks(events: seq<Event>): seq<string>
  {
    if events == [] then []
    else
      var e := events[|events| - 1];
      Chunks(events[..|events| - 1]) + if e.data == "" || e.data == DONE then [] else [e.data]
  }

  predicate HasDone(events: seq<Event>)
  {
    exists i :: 0 <= i < |events| && events[i].data == DONE
  }

  /** The events that a body gives, write by write. */
  function Seen(p: Perform): seq<Event>
  {
    ParseParts(FRESH, p.writes, EVENT_CAP).0
  }

  function Capture(so: string, bytes: string, limit: nat): string
  {
    if |so| >= limit then so
    else if |bytes| <= limit - |so| then so + bytes
    else so + bytes[..limit - |so|]
  }

  lemma {:induction false} ChunksAppend(a: seq<Event>, b: seq<Event>)
    ensures Chunks(a + b) == Chunks(a) + Chunks(b)
  {
    if b == [] {
      assert a + b == a;
    } else {
      var n := |b| - 1;
      assert (a + b)[..|a| + n] == a + b[..n];
      ChunksAppend(a, b[..n]);
    }
  }

  lemma HasDoneAppend(a: seq<Event>, b: seq<Event>)
    ensures HasDone(a + b) <==> HasDone(a) || HasDone(b)
  {
    assert forall i :: 0 <= i < |a| ==> (a + b)[i] == a[i];
    assert forall i :: 0 <= i < |b| ==> (a + b)[|a| + i] == b[i];
  }

  /** The caller's side of `on_chunk`. */
  class Sink {
    var received: seq<string>

    constructor ()
      ensures received == []
    {
      received := [];
    }

    method OnChunk(data: string)
      modifies this
      ensures received == old(received) + [data]
    {
      received := received + [data];
    }
  }

  /** What the callback of one attempt keeps. */
  class StreamContext {
    const reader: Reader
    const sink: Sink
    const limit: nat
    var capture: string
    var sawDone: bool
    var chunks: nat

    constructor (sink: Sink, limit: nat)
      ensures this.sink == sink && this.limit == limit && fresh(reader)
      ensures Blank()
    {
      this.sink := sink;
      this.limit := limit;
      reader := new Reader();
      capture, sawDone, chunks := "", false, 0;
    }

    predicate Blank()
      reads this, reader
    {
      reader.state == FRESH && capture == "" && !sawDone && chunks == 0
    }

    method Clear()
      modifies this, reader
      ensures Blank()
    {
      capture := "";
      reader.Reset();
      sawDone := false;
      chunks := 0;
    }

    method Write(bytes: string)
      modifies this, reader, sink
      ensures bytes == "" ==> unchanged(this, reader, sink)
      ensures bytes != "" ==>
        var (events, state) := ParseCapped(Fed(old(reader.state), bytes), EVENT_CAP);
        && reader.state == state && sink.received == old(sink.received) + Chunks(events)
        && sawDone == (old(sawDone) || HasDone(events)) && chunks == old(chunks) + |Chunks(events)|
        && capture == Capture(old(capture), bytes, limit)
    {
      if bytes == "" { return; }
      if |capture| < limit {
        var remaining := limit - |capture|;
        var toAdd := if |bytes| <= remaining then |bytes| else remaining;
        assert bytes[..|bytes|] == bytes;
        capture := capture + bytes[..toAdd];
      }
      var events, limited := reader.Feed(bytes, EVENT_CAP);
      Deliver(events);
    }

    method Deliver(events: seq<Event>)
      modifies this`sawDone, this`chunks, sink
      ensures sink.received == old(sink.received) + Chunks(events)
      ensures sawDone == (old(sawDone) || HasDone(events)) && chunks == old(chunks) + |Chunks(events)|
    {
      for i := 0 to |events|
        invariant sink.received == old(sink.received) + Chunks(events[..i])
        invariant sawDone == (old(sawDone) || HasDone(events[..i])) && chunks == old(chunks) + |Chunks(events[..i])|
      {
        OneMore(events, i);
        if events[i].data == DONE {
          sawDone := true;
        } else if events[i].data != "" {
          chunks := chunks + 1;
          sink.OnChunk(events[i].data);
        }
      }
      assert events[..|events|] == events;
    }
  }

  lemma OneMore(events: seq<Event>, i: nat)
    requires i < |events|
    ensures Chunks(events[..i + 1]) ==
      Chunks(events[..i]) + if events[i].data == "" || events[i].data == DONE then [] else [events[i].data]
    ensures HasDone(events[..i + 1]) <==> HasDone(events[..i]) || events[i].data == DONE
  {
    assert events[..i + 1][..i] == events[..i];
    assert events[..i + 1] == events[..i] + [events[i]];
    HasDoneAppend(events[..i], [events[i]]);
  }

  /** The callback gets the events of the body in order, however it is cut into writes; only what the
      last writes had no room for is missing. */
  lemma SeenIsStartOfBody(p: Perform)
    ensures
      var all := Parse(Fed(FRESH, Concat(p.writes))).0;
      var missing := Parse(ParseParts(FRESH, p.writes, EVENT_CAP).1).0;
      all == Seen(p) + missing && Chunks(all) == Chunks(Seen(p)) + Chunks(missing)
  {
    PartsGiveAllInOrder(FRESH, p.writes, EVENT_CAP);
    ChunksAppend(Seen(p), Parse(ParseParts(FRESH, p.writes, EVENT_CAP).1).0);
  }

  /** The parser after the first `i` writes, and what it gave. */
  function SeenIn(p: Perform, i: nat): (seq<Event>, Parser)
    requires i <= |p.writes|
  {
    ParseParts(FRESH, p.writes[..i], EVENT_CAP)
  }

  lemma OneMoreWrite(p: Perform, i: nat)
    requires i < |p.writes|
    ensures p.writes[i] == "" ==> SeenIn(p, i + 1) == SeenIn(p, i)
    ensures p.writes[i] != "" ==>
      var (more, end) := ParseCapped(Fed(SeenIn(p, i).1, p.writes[i]), EVENT_CAP);
      SeenIn(p, i + 1) == (SeenIn(p, i).0 + more, end)
  {
    assert p.writes[..i + 1] == p.writes[..i] + [p.writes[i]];
    OneMorePart(FRESH, p.writes[..i], p.writes[i], EVENT_CAP);
  }

  function CaptureAll(parts: seq<string>, limit: nat): string
  {
    if parts == [] then "" else Capture(CaptureAll(parts[..|parts| - 1], limit), parts[|parts| - 1], limit)
  }

  /** The body is captured up to the limit. */
  lemma {:induction false} CaptureIsPrefix(parts: seq<string>, limit: nat)
    ensures CaptureAll(parts, limit) ==
      if |Concat(parts)| <= limit then Concat(parts) else Concat(parts)[..limit]
  {
    if parts != [] {
      var n := |parts| - 1;
      CaptureIsPrefix(parts[..n], limit);
      assert parts == parts[..n] + [parts[n]];
      ConcatAppend(parts[..n], [parts[n]]);
      ConcatOne(parts[n]);
    }
  }

  /** The context after some writes, `before` being what the callback had got. */
  predicate Reached(ctx: StreamContext, before: seq<string>, events: seq<Event>, state: Parser)
    reads ctx, ctx.reader, ctx.sink
  {
    && ctx.reader.state == state && ctx.sink.received == before + Chunks(events)
    && ctx.chunks == |Chunks(events)| && ctx.sawDone == HasDone(events)
  }

  /** One call of the write callback. */
  method WriteOne(ctx: StreamContext, bytes: string, ghost before: seq<string>, ghost events: seq<Event>, ghost state: Parser)
    requires Reached(ctx, before, events, state)
    modifies ctx, ctx.reader, ctx.sink
    ensures bytes == "" ==> Reached(ctx, before, events, state)
    ensures bytes != "" ==>
      var (more, end) := ParseCapped(Fed(state, bytes), EVENT_CAP);
      Reached(ctx, before, events + more, end)
    ensures ctx.capture == if bytes == "" then old(ctx.capture) else Capture(old(ctx.capture), bytes, ctx.limit)
  {
    ghost var more := ParseCapped(Fed(state, bytes), EVENT_CAP).0;
    ctx.Write(bytes);
    ChunksAppend(events, more);
    HasDoneAppend(events, more);
    assert (before + Chunks(events)) + Chunks(more) == before + (Chunks(events) + Chunks(more));
  }

  /** `curl_easy_perform`: the write callback once for each piece. */
  method Run(ctx: StreamContext, p: Perform)
    requires ctx.Blank()
    modifies ctx, ctx.reader, ctx.sink
    ensures ctx.sink.received == old(ctx.sink.received) + Chunks(Seen(p))
    ensures ctx.chunks == |Chunks(Seen(p))| && ctx.sawDone == HasDone(Seen(p))
    ensures ctx.capture == CaptureAll(p.writes, ctx.limit)
  {
    ghost var before := ctx.sink.received;
    assert before + Chunks([]) == before;
    var i := 0;
    while i < |p.writes|
      invariant i <= |p.writes| && Reached(ctx, before, SeenIn(p, i).0, SeenIn(p, i).1)
      invariant ctx.capture == CaptureAll(p.writes[..i], ctx.limit)
    {
      OneMoreWrite(p, i);
      CaptureOneMore(p.writes, i, ctx.limit);
      WriteOne(ctx, p.writes[i], before, SeenIn(p, i).0, SeenIn(p, i).1);
      i := i + 1;
    }
    assert p.writes[..i] == p.writes;
  }

  lemma CaptureOneMore(parts: seq<string>, i: nat, limit: nat)
    requires i < |parts|
    ensures CaptureAll(parts[..i + 1], limit) == Capture(CaptureAll(parts[..i], limit), parts[i], limit)
    ensures parts[i] == "" ==> CaptureAll(parts[..i + 1], limit) == CaptureAll(parts[..i], limit)
  {
    assert parts[..i + 1][..i] == parts[..i];
    var so := CaptureAll(parts[..i], limit);
    assert so + "" == so;
  }

  // ---------------------------------------------------------------------------------------------
  // The attempts
  // ---------------------------------------------------------------------------------------------

  function AnswerOf(p: Perform, limit: nat): Answer
  {
    Answer(Chunks(Seen(p)), HasDone(Seen(p)), CaptureAll(p.writes, limit), p.rc, p.status)
  }

  function AnswersOf(x: Try, limit: nat): Exchange
  {
    Exchange(AnswerOf(x.first, limit), AnswerOf(x.direct, limit))
  }

  /** What the network does in each attempt. */
  type Service = nat -> Try

  function NetworkOf(service: Service, limit: nat): Network
  {
    (k: nat) => AnswersOf(service(k), limit)
  }

  /** The context holds what the answer says. */
  predicate Holds(ctx: StreamContext, a: Answer)
    reads ctx
  {
    ctx.chunks == |a.chunks| && ctx.sawDone == a.done && ctx.capture == a.body
  }

  method RunAnswer(ctx: StreamContext, p: Perform)
    requires ctx.Blank()
    modifies ctx, ctx.reader, ctx.sink
    ensures Holds(ctx, AnswerOf(p, ctx.limit))
    ensures ctx.sink.received == old(ctx.sink.received) + AnswerOf(p, ctx.limit).chunks
  {
    Run(ctx, p);
  }

  /** One attempt. */
  method Attempt(cfg: Config, x: Try, sink: Sink, ghost answers: Exchange) returns (ctx: StreamContext, p: Perform)
    requires answers == AnswersOf(x, cfg.captureLimit)
    modifies sink
    ensures sink.received == old(sink.received) + Given(cfg.policy, answers)
    ensures Holds(ctx, Deciding(cfg.policy, answers))
    ensures p.rc == Deciding(cfg.policy, answers).rc && p.status == Deciding(cfg.policy, answers).status
  {
    ctx := new StreamContext(sink, cfg.captureLimit);
    p := x.first;
    RunAnswer(ctx, p);
    if !p.rc.Fine? && cfg.policy.proxy {
      ctx.Clear();
      p := x.direct;
      ghost var mid := ctx.sink.received;
      RunAnswer(ctx, p);
      Joined(old(sink.received), mid, sink.received, answers.first.chunks, answers.direct.chunks);
    }
  }

  lemma Joined(start: seq<string>, mid: seq<string>, end: seq<string>, a: seq<string>, b: seq<string>)
    requires mid == start + a && end == mid + b
    ensures end == start + (a + b)
  {
  }

  /** The loop's decision. */
  method Decide(cfg: Config, ctx: StreamContext, p: Perform, ghost a: Answer, attempt: nat) returns (again: bool, result: Outcome)
    requires Holds(ctx, a) && a.rc == p.rc && a.status == p.status
    ensures again <==> attempt < MaxRetries(cfg.policy) && Retryable(a)
    ensures !again ==> result == Report(a)
  {
    result := Outcome(if p.rc.Fine? then p.status else 0, ctx.capture, false, !p.rc.Fine?);
    if p.rc.Fine? && 200 <= p.status < 300 {
      return false, result.(sawDone := ctx.sawDone);
    }
    var canRetryStream := ctx.chunks == 0 && !ctx.sawDone;
    var retryable := canRetryStream && if !p.rc.Fine? then RetryableCurl(p.rc) else RetryableStatus(p.status);
    again := attempt < MaxRetries(cfg.policy) && retryable;
  }

  lemma AttemptInLoop(policy: Policy, net: Network, attempt: nat, before: seq<string>)
    requires attempt <= MaxRetries(policy)
    ensures (before + GivenIn(policy, net, attempt)) + Given(policy, net(attempt)) ==
      before + GivenIn(policy, net, attempt + 1)
    ensures Last(policy, net, attempt) ==
      if attempt < MaxRetries(policy) && Retryable(Deciding(policy, net(attempt)))
      then Last(policy, net, attempt + 1) else attempt
  {
  }

  /** The loop over the attempts, `net` being what the service answers. */
  method RetryLoopRuns(cfg: Config, service: Service, sink: Sink, ghost net: Network)
    returns (result: Outcome, attempts: nat, sleeps: seq<int>)
    requires forall k: nat {:trigger service(k)} :: net(k) == AnswersOf(service(k), cfg.captureLimit)
    modifies sink
    ensures attempts == Last(cfg.policy, net, 0) + 1 && |sleeps| == attempts - 1
    ensures sink.received == old(sink.received) + GivenIn(cfg.policy, net, attempts)
    ensures result == Report(Deciding(cfg.policy, net(attempts - 1)))
    ensures forall i :: 0 <= i < |sleeps| ==>
      0 <= sleeps[i] <= if cfg.tuning.Positive() then cfg.tuning.maxMs else 4000
  {
    ghost var before := sink.received;
    attempts, sleeps := 0, [];
    assert before + GivenIn(cfg.policy, net, 0) == before;
    while true
      invariant attempts <= MaxRetries(cfg.policy) && |sleeps| == attempts
      invariant Last(cfg.policy, net, attempts) == Last(cfg.policy, net, 0)
      invariant sink.received == before + GivenIn(cfg.policy, net, attempts)
      invariant forall i :: 0 <= i < |sleeps| ==>
        0 <= sleeps[i] <= if cfg.tuning.Positive() then cfg.tuning.maxMs else 4000
      decreases MaxRetries(cfg.policy) - attempts
    {
      AttemptInLoop(cfg.policy, net, attempts, before);
      var ctx, p := Attempt(cfg, service(attempts), sink, net(attempts));
      var again;
      again, result := Decide(cfg, ctx, p, Deciding(cfg.policy, net(attempts)), attempts);
      attempts := attempts + 1;
      if !again { return; }
      var ms := RetryBackoff.ComputeSleepMs(cfg.tuning, attempts - 1, p.retryAfterMs);
      sleeps := sleeps + [ms];
    }
  }

  /** `http_post_json_stream`.  `attempts` are the attempts made, `sleeps` the pauses between them. */
  method PostJsonStream(cfg: Config, service: Service, sink: Sink)
    returns (result: Outcome, attempts: nat, sleeps: seq<int>)
    modifies sink
    ensures attempts == Last(cfg.policy, NetworkOf(service, cfg.captureLimit), 0) + 1 && |sleeps| == attempts - 1
    ensures sink.received ==
      old(sink.received) + GivenIn(cfg.policy, NetworkOf(service, cfg.captureLimit), attempts)
    ensures result == Report(Deciding(cfg.policy, NetworkOf(service, cfg.captureLimit)(attempts - 1)))
    ensures forall i :: 0 <= i < |sleeps| ==>
      0 <= sleeps[i] <= if cfg.tuning.Positive() then cfg.tuning.maxMs else 4000
  {
    result, attempts, sleeps := RetryLoopRuns(cfg, service, sink, NetworkOf(service, cfg.captureLimit));
  }
}
