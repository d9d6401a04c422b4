/**
 The live-channel demonstrations of the server: the events a connection receives
 when it asks for the indexing demo (server.js:375-428) or the query demo
 (server.js:433-492), with both requests passing through the rate limiter.

 The handlers wait between their events; the waits are left out, so a handler is
 the sequence of events it emits, in emission order. Timestamps, the random
 `step-progress` ticks and the random `confidence` are not part of the events.
 */
module LiveDemo {
  import opened Text
  import opened JsValues
  import opened Answers
  import opened RateLimit

  /** One stage of a demo: its name, message, icon and simulated duration in milliseconds. */
  datatype Stage = Stage(step: string, message: string, icon: string, duration: nat)

  datatype Status = Processing | Completed

  /** The events the demos emit, by socket event name. */
  datatype Event =
    | ProcessingStep(step: string, message: string, icon: string, status: Status)   // 'processing-step'
    | IndexingComplete(documentId: JsValue, totalSteps: nat, summary: string)     // 'indexing-complete'
    | QueryStep(step: string, message: string, icon: string, status: Status)      // 'query-step'
    | QueryComplete(question: string, response: string, processingTime: nat,
                    stepsCompleted: nat, sources: seq<string>)                    // 'query-complete'
    | DemoError(kind: string, message: string)                                    // 'demo-error'
    | RateLimitExceeded(message: string, retryAfter: int)                         // 'rate-limit-exceeded'

  /** The stages of the indexing demo (server.js:380-385). */
  const IndexingStages: seq<Stage> := [
    Stage("loading", "Loading PDF document...", "file-pdf", 2000),
    Stage("chunking", "Splitting text into chunks...", "cut", 3000),
    Stage("embedding", "Generating vector embeddings...", "vector-square", 2500),
    Stage("storage", "Storing vectors in database...", "database", 2000)
  ]

  /** The stages of the query demo (server.js:447-452). */
  const QueryStages: seq<Stage> := [
    Stage("embedding", "Converting query to vector...", "vector-square", 1000),
    Stage("search", "Searching similar vectors...", "search", 1500),
    Stage("retrieval", "Retrieving relevant context...", "download", 800),
    Stage("generation", "Generating AI response...", "brain", 2000)
  ]

  const IndexingSummary: string := "Document successfully processed and indexed into vector database"
  const DefaultDocumentId: string := "sample-doc"
  const QuerySources: seq<string> := ["Document chunk 1", "Document chunk 2", "Document chunk 3"]
  const InvalidQuestion: string := "Invalid question provided"
  const QueryFailure: string := "An error occurred during the query demonstration"

  /** The event announcing a stage of the query demo (`query`) or the indexing demo. */
  function Announce(stage: Stage, status: Status, query: bool): Event {
    if query then QueryStep(stage.step, stage.message, stage.icon, status)
    else ProcessingStep(stage.step, stage.message, stage.icon, status)
  }

  /** The `for ... of` over the stages: each stage announced as processing, then as completed. */
  function StageEvents(stages: seq<Stage>, query: bool): (r: seq<Event>)
    ensures |r| == 2 * |stages|
  {
    seq(2 * |stages|, k requires 0 <= k < 2 * |stages| =>
      Announce(stages[k / 2], if k % 2 == 0 then Processing else Completed, query))
  }

  /** `events` opens and closes the stages one after the other, in order, never two at once. */
  predicate Bracketed(events: seq<Event>, stages: seq<Stage>, query: bool)
    decreases |stages|
  {
    if stages == [] then events == []
    else
      && |events| >= 2
      && events[0] == Announce(stages[0], Processing, query)
      && events[1] == Announce(stages[0], Completed, query)
      && Bracketed(events[2..], stages[1..], query)
  }

  /** The stage loop brackets every stage in order. */
  lemma {:induction false} StageEventsBracketed(stages: seq<Stage>, query: bool)
    ensures Bracketed(StageEvents(stages, query), stages, query)
    decreases |stages|
  {
    if stages != [] {
      var evs := StageEvents(stages, query);
      var rest := StageEvents(stages[1..], query);
      forall k | 0 <= k < |rest| ensures evs[2..][k] == rest[k] {
        assert (k + 2) / 2 == k / 2 + 1 && (k + 2) % 2 == k % 2;
      }
      assert evs[2..] == rest;
      StageEventsBracketed(stages[1..], query);
    }
  }

  /** The sum of the stage durations, `steps.reduce((sum, step) => sum + step.duration, 0)`. */
  function TotalDuration(stages: seq<Stage>): nat {
    if stages == [] then 0 else TotalDuration(stages[..|stages| - 1]) + stages[|stages| - 1].duration
  }

  /** `start-indexing-demo` once let through (server.js:376-419): the stages, then the
      completion carrying the requested document id, or "sample-doc" when it is falsy. */
  function IndexingDemo(data: JsValue): (r: seq<Event>)
    ensures |r| == 2 * |IndexingStages| + 1
    ensures r[|r| - 1].IndexingComplete? && Truthy(r[|r| - 1].documentId)
  {
    var documentId := Property(OrEmpty(data), "documentId");
    StageEvents(IndexingStages, false)
      + [IndexingComplete(if Truthy(documentId) then documentId else Str(DefaultDocumentId),
                          |IndexingStages|, IndexingSummary)]
  }

  /** `question.length > 500`; a value without a length never compares greater. */
  predicate TooLong(question: JsValue) {
    LengthOf(question).Some? && LengthOf(question).value > 500
  }

  /** `start-query-demo` once let through (server.js:434-491). A falsy or over-long
      question gets one `demo-error` and nothing else; a whitespace-only string passes.
      A question that passes runs through the stages; a string then gets its canned
      answer, and anything else fails in `toLowerCase` and gets the generic error. */
  function QueryDemo(data: JsValue): (r: seq<Event>)
    ensures var q := Property(OrEmpty(data), "question");
            (!Truthy(q) || TooLong(q)) <==> r == [DemoError("query", InvalidQuestion)]
    ensures r != [] && (r[|r| - 1].QueryComplete? || r[|r| - 1].DemoError?)
    ensures forall k :: 0 <= k < |r| ==> !r[k].ProcessingStep? && !r[k].IndexingComplete?
  {
    var question := Property(OrEmpty(data), "question");
    if !Truthy(question) || TooLong(question) then
      [DemoError("query", InvalidQuestion)]
    else
      var last := match question
        case Str(s) => QueryComplete(s, ServerMockResponse(s, ""), TotalDuration(QueryStages),
                                     |QueryStages|, QuerySources)
        case _ => DemoError("query", QueryFailure);
      StageEvents(QueryStages, true) + [last]
  }

  /** The indexing trace: every stage processed and completed in order, then the
      completion, whose document id is the payload's when truthy and "sample-doc" otherwise. */
  lemma IndexingTrace(data: JsValue)
    ensures var r := IndexingDemo(data);
            var documentId := Property(OrEmpty(data), "documentId");
            && Bracketed(r[..|r| - 1], IndexingStages, false)
            && r[|r| - 1].totalSteps == 4
            && (Truthy(documentId) ==> r[|r| - 1].documentId == documentId)
            && (!Truthy(documentId) ==> r[|r| - 1].documentId == Str("sample-doc"))
  {
    var r := IndexingDemo(data);
    assert r[..|r| - 1] == StageEvents(IndexingStages, false);
    StageEventsBracketed(IndexingStages, false);
  }

  /** The trace of an accepted question: the four stages in order, then the answer the
      server's canned-answer table gives for a string, or the generic error otherwise. */
  lemma QueryTrace(data: JsValue)
    requires var q := Property(OrEmpty(data), "question"); Truthy(q) && !TooLong(q)
    ensures var r := QueryDemo(data);
            var q := Property(OrEmpty(data), "question");
            && |r| == 9
            && Bracketed(r[..8], QueryStages, true)
            && (q.Str? ==>
                  && r[8].QueryComplete? && r[8].question == q.s
                  && Answered(ServerTable, ServerFallback, q.s, r[8].response)
                  && r[8].processingTime == 5300 && r[8].stepsCompleted == 4)
            && (!q.Str? ==> r[8] == DemoError("query", QueryFailure))
  {
    var r := QueryDemo(data);
    assert r[..8] == StageEvents(QueryStages, true);
    StageEventsBracketed(QueryStages, true);
    QueryDuration();
  }

  /** The query demo's stages last 5300 ms in total, the `processingTime` it reports. */
  lemma QueryDuration()
    ensures TotalDuration(QueryStages) == 5300
  {
    var st := QueryStages;
    assert st[..0] == [];
    assert TotalDuration(st[..1]) == 1000 by { assert st[..1][..0] == st[..0]; }
    assert TotalDuration(st[..2]) == 2500 by { assert st[..2][..1] == st[..1]; }
    assert TotalDuration(st[..3]) == 3300 by { assert st[..3][..2] == st[..2]; }
    assert st[..4] == st;
    assert st[..4][..3] == st[..3];
  }

  /** A question of white space only is not rejected on the live channel (it is over HTTP):
      it runs the whole demo and gets the server's fallback answer. */
  lemma BlankQuestionAccepted(data: JsValue, s: string)
    requires Property(OrEmpty(data), "question") == Str(s)
    requires s != [] && |s| <= 500 && AllSpace(s)
    ensures var r := QueryDemo(data);
            |r| == 9 && r[8].QueryComplete? && r[8].question == s && r[8].response == ServerFallback
  {
    QueryTrace(data);
    SpaceIsNoLetter(s);
    NoLetterQuestion(s, "");
    AnswerDetermined(ServerTable, ServerFallback, s, QueryDemo(data)[8].response, ServerMockResponse(s, ""));
  }

  /** White space holds no ASCII letter. */
  lemma SpaceIsNoLetter(s: string)
    requires AllSpace(s)
    ensures forall c :: c in s ==> !('a' <= c <= 'z') && !('A' <= c <= 'Z')
  {
    forall c | c in s ensures !('a' <= c <= 'z') && !('A' <= c <= 'Z') {
      var k :| 0 <= k < |s| && s[k] == c;
      assert IsSpace(s[k]);
    }
  }

  /** A question of 500 characters passes and one of 501 is rejected. */
  lemma QuestionLengthBoundary(s: string)
    requires s != []
    ensures |s| <= 500 ==> QueryDemo(Obj(map["question" := Str(s)])) != [DemoError("query", InvalidQuestion)]
    ensures |s| > 500 ==> QueryDemo(Obj(map["question" := Str(s)])) == [DemoError("query", InvalidQuestion)]
  {
  }

  /** `start-indexing-demo` through `rateLimitSocket('indexing-demo', 3)`, as intended
      (see `OnConnectAsWritten` for the registration as written). */
  function OnIndexingTrigger(sessions: Sessions, id: string, now: int, data: JsValue): (r: (Sessions, seq<Event>))
    ensures id !in sessions ==> r == (sessions, [])
    ensures id in sessions ==>
              var c := Tick(sessions[id], now, WindowMs);
              && r.0 == sessions[id := c]
              && (c.requestCount <= IndexingLimit ==> r.1 == IndexingDemo(data))
              && (c.requestCount > IndexingLimit ==> r.1 == [RateLimitExceeded(RejectionMessage("indexing-demo"), WindowMs)])
  {
    var (after, verdict) := Guard(sessions, id, now, "indexing-demo", IndexingLimit, WindowMs);
    (after, Emitted(verdict, IndexingDemo(data)))
  }

  /** `start-query-demo` through `rateLimitSocket('query-demo', 5)`, as intended. */
  function OnQueryTrigger(sessions: Sessions, id: string, now: int, data: JsValue): (r: (Sessions, seq<Event>))
    ensures id !in sessions ==> r == (sessions, [])
    ensures id in sessions ==>
              var c := Tick(sessions[id], now, WindowMs);
              && r.0 == sessions[id := c]
              && (c.requestCount <= QueryLimit ==> r.1 == QueryDemo(data))
              && (c.requestCount > QueryLimit ==> r.1 == [RateLimitExceeded(RejectionMessage("query-demo"), WindowMs)])
  {
    var (after, verdict) := Guard(sessions, id, now, "query-demo", QueryLimit, WindowMs);
    (after, Emitted(verdict, QueryDemo(data)))
  }

  /** The events of a guarded trigger: none without a record, the one rejection event,
      or the handler's events. */
  function Emitted(verdict: Verdict, handler: seq<Event>): seq<Event> {
    match verdict
    case NoRecord => []
    case Rejected(message, retryAfter) => [RateLimitExceeded(message, retryAfter)]
    case Admitted => handler
  }

  /** A rejected trigger emits exactly one event and no demo event; the demo events come
      only with an admitted trigger. */
  lemma RejectedTriggerIsSilent(sessions: Sessions, id: string, now: int, data: JsValue)
    requires id in sessions && Tick(sessions[id], now, WindowMs).requestCount > QueryLimit
    ensures var events := OnQueryTrigger(sessions, id, now, data).1;
            && |events| == 1 && events[0].RateLimitExceeded? && events[0].retryAfter == 60000
            && forall k :: 0 <= k < |events| ==> !events[k].QueryStep? && !events[k].DemoError?
  {
  }

  /** The listeners a connection registers, in order (server.js:375, 433, 496, 500). */
  const Listeners: seq<string> := ["start-indexing-demo", "start-query-demo", "disconnect", "error"]

  /** What handling a new connection leaves behind: the table, the events already sent,
      the listeners registered, and whether the handler threw. */
  datatype Connection = Connection(sessions: Sessions, events: seq<Event>, listeners: seq<string>, threw: bool)

  /** The connection handler as written (server.js:338-375). `rateLimitSocket(...)(handler)`
      runs the guard at registration: the handler runs at once with no payload, and the
      guard's return value, `undefined`, is passed to `socket.on`, which throws because a
      listener must be a function. Only the synchronous part of the handler, its first
      event, is emitted before the throw; no listener is registered. */
  function OnConnectAsWritten(sessions: Sessions, id: string, now: int): (r: Connection)
    ensures id in r.sessions && r.sessions[id].requestCount == 1
    ensures r.threw && r.listeners == []
  {
    var connected := Connect(sessions, id, now);
    var (after, verdict) := Guard(connected, id, now, "indexing-demo", IndexingLimit, WindowMs);
    var handlerStart := if verdict == Admitted then IndexingDemo(Undefined)[..1] else [];
    Connection(after, handlerStart, [], true)
  }

  /** The connection handler as evidently intended: a fresh record and every listener
      registered, nothing emitted and no request counted. */
  function OnConnect(sessions: Sessions, id: string, now: int): (r: Connection)
    ensures id in r.sessions && r.sessions[id].requestCount == 0
    ensures !r.threw && r.listeners == Listeners && r.events == []
  {
    Connection(Connect(sessions, id, now), [], Listeners, false)
  }

  /** The registration as written differs from the intended one on every connection: an
      indexing demo for "sample-doc" starts unasked, one request is already counted,
      and `socket.on` throws before any listener exists. */
  lemma ConnectAsWrittenMisbehaves(sessions: Sessions, id: string, now: int)
    ensures var w := OnConnectAsWritten(sessions, id, now);
            && w.events == [ProcessingStep("loading", "Loading PDF document...", "file-pdf", Processing)]
            && w.sessions[id] == Conn(now, 1, now)
            && w.threw && "start-indexing-demo" !in w.listeners
  {
  }

  /** With the intended registration, a fresh connection gets three indexing demos within
      a window and the fourth request is rejected. */
  lemma ThreeIndexingDemosPerWindow(sessions: Sessions, id: string, now: int, data: JsValue)
    ensures var s0 := OnConnect(sessions, id, now).sessions;
            var (s1, e1) := OnIndexingTrigger(s0, id, now, data);
            var (s2, e2) := OnIndexingTrigger(s1, id, now, data);
            var (s3, e3) := OnIndexingTrigger(s2, id, now, data);
            var (s4, e4) := OnIndexingTrigger(s3, id, now, data);
            && e1 == IndexingDemo(data) && e2 == IndexingDemo(data) && e3 == IndexingDemo(data)
            && e4 == [RateLimitExceeded(RejectionMessage("indexing-demo"), WindowMs)]
  {
    var s0 := OnConnect(sessions, id, now).sessions;
    assert s0[id] == Conn(now, 0, now);
    var (s1, e1) := OnIndexingTrigger(s0, id, now, data);
    assert s1[id] == Conn(now, 1, now);
    var (s2, e2) := OnIndexingTrigger(s1, id, now, data);
    assert s2[id] == Conn(now, 2, now);
    var (s3, e3) := OnIndexingTrigger(s2, id, now, data);
    assert s3[id] == Conn(now, 3, now);
    var (s4, e4) := OnIndexingTrigger(s3, id, now, data);
    assert e1 == IndexingDemo(data) && e2 == IndexingDemo(data) && e3 == IndexingDemo(data);
    assert e4 == [RateLimitExceeded(RejectionMessage("indexing-demo"), WindowMs)];
  }
}
