# rag-visualizer core, modelled in Dafny

rag-visualizer is a teaching server for retrieval-augmented generation (RAG). It has
an HTTP API, a live Socket.IO channel and a command-line walkthrough. This project
models the parts of it that carry logic of their own:

- **Chunker** (`chunker.dfy`): `chunkText` of the command-line demo.
  - It splits text on runs of `.`, `!` and `?` and drops blank fragments.
  - It then packs the sentences greedily into chunks.
  - Its specification is a partition of the sentences into consecutive groups. A sentence joins the group being built exactly when the untrimmed sentence fits after the chunk built so far.
  - Proved: the chunker meets this specification; the specification admits one grouping only; the chunk shape; the empty cases; the length bounds.
- **Answers** (`answers.dfy`): the canned answers of the mock language model, in the server's version and the demo's version.
  - The answer is the one for the first key, in table order, that occurs in the lower-cased question, or the fallback.
  - Proved: the answer is determined. The two tables' key orders lead to different answers.
- **RateLimit** (`ratelimit.dfy`): the connection table of the live channel and the `rateLimitSocket` guard.
  - Proved: what a trigger does to a record; that the two guarded events share one counter; that at most `limit` triggers pass within a window; that the lockout persists.
- **LiveDemo** (`livedemo.dfy`): the events a connection receives from the indexing demo and the query demo, with the guard in front of each.
  - It also models the connection handler as written and as evidently intended (see Findings).
- **Http** (`http.dfy`): `POST /api/process-document` and `POST /api/query`.
  - Document lookup goes through `parseInt`. Chunk ids are built from the requested id.
  - The query validation is modelled, with its order and its bounds.
  - The embedding, search and generation fallbacks are modelled, along with context building and the shape of the reply.
  - The external services are inputs: each is unavailable, fails, or returns a value.
- Supporting modules:
  - `text.dfy`: the JavaScript string operations used, namely `trim`, ASCII `toLowerCase`, `includes`, `join`, and integer rendering.
  - `jsvalues.dfy`: payload values, truthiness, `String()` (which throws for an object with its own `toString` property), `parseInt` without a radix, and `data || {}` destructuring.
  - `wrappers.dfy`: `Option`.

Two consequences of the code are easy to misread from its names; the model follows the code:

- The guard (`rateLimitSocket`) records the time of every trigger, including rejected ones, not only of the triggers it lets through.
- The `maxLength` of `chunkText` is not a hard bound. A chunk of several sentences can be `maxLength + 1` characters long, because the period that replaces the final space is not counted. A sentence over the bound before trimming always starts a new chunk. A sentence is always alone in its chunk exactly when its trimmed form plus three characters is over the bound: any chunk it shares holds another sentence of at least one character and a piece (trimmed sentence, period, space) of at least three. Below that threshold a sentence followed by a one-letter sentence shares its chunk.

## Model

| member | source | states |
|---|---|---|
| Chunker.SplitReassembles | demo.js:182 | the split fragments hold no punctuation, the separators are non-empty punctuation runs, and putting them back gives the text |
| Chunker.KeepAppend | demo.js:182 | the blank filter keeps fragments in order and distributes over concatenation |
| Chunker.ScanMatchesGrouping | demo.js:186-193 | after every prefix, the pushed chunks and the chunk being built mirror the grouping of that prefix |
| Chunker.GroupingValid | demo.js:186-193 | the grouping the loop builds is a valid partition: consecutive non-empty groups, joins exactly when the sentence fits |
| Chunker.GroupingUnique | demo.js:186-193 | any valid grouping is the one the loop builds |
| Chunker.ChunkTextSpec | demo.js:181-197 | `chunkText` returns one chunk per group of the unique valid grouping, each its trimmed sentences plus periods joined by spaces |
| Chunker.ChunkShape | demo.js:188-196 | every chunk is non-empty, trimmed and ends with a period; no more chunks than kept sentences |
| Chunker.ChunkTextEmptyIff | demo.js:182-196 | no chunks exactly when the text has only punctuation and white space |
| Chunker.OversizedSentences | demo.js:186-195 | a sentence over the bound always starts a chunk; one whose trimmed form plus three characters is over the bound is alone, and its chunk is that sentence trimmed plus a period |
| Chunker.ShortSentencePairs | demo.js:187-188 | the threshold is exact: a non-blank sentence whose trimmed form plus three is within the bound shares its chunk with a following one-letter sentence |
| Chunker.ChunkLengthBound | demo.js:187-195 | a chunk longer than `maxLength + 1` is a single sentence that alone exceeded the bound |
| Chunker.ChunkTextLoop | demo.js:181-197 | the loop with its accumulator computes the chunks, each ending with a period |
| Text.TrimEmptyIffAllSpace | server.js:216 | `trim()` yields the empty string exactly for all-white-space strings |
| JsValues.OrEmpty | server.js:377 | `data \|\| {}` is always truthy, is the payload when that is truthy, and is the empty object when it is falsy |
| JsValues.PayloadField | server.js:435 | destructuring a field of `data \|\| {}` reads the payload's own field, or `undefined` for a missing, falsy or non-object payload |
| JsValues.ParseIntOfIntToString | server.js:182 | `parseInt` of the decimal rendering of an integer gives that integer back |
| JsValues.ParseIntOfToString | server.js:182 | `parseInt(String(n))` is `n` for every safe-integer number |
| Answers.SelectAnswer | server.js:519-526 | the answer is that of the first key in table order occurring in the lower-cased question, or the fallback when none occurs |
| Answers.SelectAnswerLoop | server.js:519-526 | the early-return loop over the entries gives that same answer |
| Answers.AnswerDetermined | server.js:520-524 | two answers meeting the specification are equal |
| Answers.ServerMockResponse | server.js:511-527 | the server's answer meets the specification over its four-key table; the context is ignored |
| Answers.DemoMockResponse | demo.js:203-218 | the demo's answer meets the specification over its three-key table |
| Answers.BinarySearchFirst | server.js:513 | a question mentioning binary search gets the binary-search answer in both versions |
| Answers.HashTableServerOnly | demo.js:204-217 | a hash-table question gets the server's hash-table answer and the demo's fallback |
| Answers.KeyOrderMatters | demo.js:204-208 | for array plus time complexity, the server answers about arrays and the demo about time complexity |
| Answers.NoLetterQuestion | server.js:519-526 | a question with no ASCII letter gets each version's fallback |
| Answers.WalkthroughQuestion | demo.js:96 | the walkthrough's default question mentions binary search |
| RateLimit.Connect | server.js:343-347 | a connection gets a fresh record with count 0; other records unchanged |
| RateLimit.Disconnect | server.js:498 | the disconnecting record is removed and only it |
| RateLimit.Tick | server.js:355-361 | the count restarts at 1 after more than a window of quiet, else grows by one; the trigger's time is recorded |
| RateLimit.Guard | server.js:350-373 | no record means nothing happens; otherwise the record ticks and the trigger passes exactly when the count is within the limit, else one rejection with the message and `retryAfter` |
| RateLimit.NoRecordAfterDisconnect | server.js:352-353 | after a disconnect a trigger changes nothing and emits nothing |
| RateLimit.GuardKeepsOthers | server.js:352-361 | a trigger changes only its own connection's record |
| RateLimit.SteadyReplay | server.js:355-369 | without a quiet window, the count counts every trigger and trigger `j` passes exactly when the count including it is within its limit |
| RateLimit.AtMostLimitAdmitted | server.js:355-369 | from a record with count 0, at most `limit` triggers pass in any run whose consecutive triggers are at most a window apart, however late the first one comes |
| RateLimit.FreshReplaySame | server.js:355-361 | two records at count 0 with the same connection time end alike after any non-empty run of triggers, whatever their last request times |
| RateLimit.LockoutPersists | server.js:363-369 | once past the limit, every further trigger in the window is rejected |
| RateLimit.RunIsReplay | server.js:350-373 | running the guard over one connection's triggers leaves its record as `Replay` says and no other record changed, and lets trigger `j` through exactly when `Replay` does |
| RateLimit.SharedRecord | server.js:350-373 | three query-demo triggers make the next indexing-demo trigger in the window be rejected |
| LiveDemo.StageEventsBracketed | server.js:387-415 | every stage is announced as processing and then completed, in order |
| LiveDemo.IndexingDemo | server.js:376-422 | nine events, the last being the completion with a truthy document id |
| LiveDemo.IndexingTrace | server.js:377-422 | the stages are bracketed, then completion with four steps and the payload's id, or "sample-doc" when it is falsy |
| LiveDemo.QueryDemo | server.js:434-492 | a falsy or over-500-character question gets exactly one `demo-error`; the trace ends in `query-complete` or `demo-error`; no indexing events |
| LiveDemo.QueryTrace | server.js:446-485 | an accepted question gets the four bracketed stages, then the canned answer with processing time 5300 and four steps, or the error for a non-string |
| LiveDemo.QueryDuration | server.js:479 | the query stages sum to 5300 ms |
| LiveDemo.BlankQuestionAccepted | server.js:437-444 | a white-space-only question passes the live validation and gets the fallback answer |
| LiveDemo.QuestionLengthBoundary | server.js:437 | 500 characters pass, more are rejected |
| LiveDemo.OnIndexingTrigger | server.js:375 | the indexing trigger ticks the record and yields the demo within limit 3, else one rejection |
| LiveDemo.OnQueryTrigger | server.js:433 | the query trigger ticks the record and yields the demo within limit 5, else one rejection |
| LiveDemo.RejectedTriggerIsSilent | server.js:363-369 | a rejected trigger emits exactly the one rate-limit event and nothing of the demo |
| LiveDemo.OnConnectAsWritten | server.js:339-375 | the registration as written counts a request, starts an indexing demo, throws, and registers no listener |
| LiveDemo.OnConnect | server.js:339-503 | the intended registration creates a fresh record, emits nothing, and registers all four listeners |
| LiveDemo.ConnectAsWrittenMisbehaves | server.js:375 | the as-written connection emits the first "loading" event, has count 1, and has no indexing listener |
| LiveDemo.ThreeIndexingDemosPerWindow | server.js:350-375 | with the intended registration, three indexing demos run in a window and the fourth trigger is rejected |
| Http.MockVector | server.js:507-509 | `dimension` values, each in [-1, 1) |
| Http.FindDocument | server.js:182 | the first document with the parsed id, or none when the id is NaN or unknown |
| Http.ProcessDocument | server.js:180-206 | the handler throws exactly when the table is non-empty and `String()` of the id throws; an empty table always gives 404; otherwise 404 exactly when no document has the parsed id, and else, for the FIRST document with that id, its title, its chunks in order with ids `documentId-index`, and the four fixed steps |
| Http.DocumentChunks | server.js:190-194 | one chunk per stored chunk, same text and order, id from the requested id, 8-dimensional vector |
| Http.NumericIdFindsDocument | server.js:182 | a numeric id serves the first document with that id |
| Http.UnknownDocument | server.js:182-186 | an id no document has gets 404 |
| Http.ObjectIdThrows | server.js:182 | with at least one document, an object id with its own `toString` property makes the handler throw before any reply |
| Http.PlainObjectIdNotFound | server.js:182-186 | any other object id parses to NaN and gets 404 |
| Http.SampleIdTwo | server.js:134-186 | on the server's own table, id 2 serves "Binary Search Algorithm" |
| Http.SampleUnknownId | server.js:134-186 | on the server's own table, id 999 gets 404 |
| Http.MissingDocumentId | server.js:181-186 | a body without an id gets 404 |
| Http.ChunkIdsDistinct | server.js:191 | the chunk ids of one reply are pairwise distinct |
| Http.ValidateQuestion | server.js:216-228 | INVALID_INPUT exactly for a non-string or blank question; QUESTION_TOO_LONG exactly for a non-blank one over 1000; otherwise accepted |
| Http.BlankBeforeLength | server.js:216-223 | a blank question is INVALID_INPUT however long it is |
| Http.LengthBoundary | server.js:223 | 1000 characters pass, 1001 are too long |
| Http.MockMatches | server.js:257-263 | the first three documents in order, with their ids rendered and their contents as text |
| Http.MockMatchesRanked | server.js:258-262 | scores 0.9, 0.8, 0.7, strictly decreasing; ids parse back to the document ids |
| Http.Preview | server.js:307-309 | at most `n` leading characters followed by "..." |
| Http.Query | server.js:213-334 | a 400 exactly when validation fails, with its error; a 500 exactly when a used match lacks text, with details redacted in production; otherwise the reply echoes the question, and its response is the model's text when the model answered, else the canned answer for the question |
| Http.ContextLength | server.js:267 | the context is the match texts joined by the separator, so its length is their total plus seven per gap |
| Http.QueryReplyShape | server.js:301-316 | at most eight vector dimensions shown, out of the full count; one preview per match in order; the context preview and length |
| Http.FallbackPipeline | server.js:234-297 | with neither index nor model, a binary-search question gets the binary-search answer over the first three documents' ids |

## Left out

- The HTTP and Socket.IO plumbing is not modelled: Express routing, helmet, CORS, static files, logging, signal handling, and the start-up with its provider retry loop.
- The provider SDKs (embedding model, vector index, Gemini) are outside the model. Each is a `Provider` input that is unavailable, fails, or returns a value.
- A model reply without `text`, and an index reply without `matches`, are not modelled.
- Time is not modelled:
  - Clock values are parameters (`now`).
  - Timestamps, `processingTimeMs`, and the `processingSteps` durations derived from it in `/api/query` are left out.
  - The waits between live events are removed; a handler is the sequence of events it emits.
  - With the waits goes the interleaving: two admitted demos on one connection run at the same time in the source and their events interleave, but the model gives each handler's events as one block.
- Randomness is partly outside the model:
  - `Math.random()` is an input `random` with values in [0, 1).
  - The random `step-progress` ticks and the random `confidence` are left out.
- The demo's console output, its `sleep`, and its other walkthrough steps are not modelled. The browser script `public/script.js` is not part of this model.
- JavaScript semantics are simplified:
  - Lengths count Unicode scalar values, not UTF-16 code units.
  - `toLowerCase` is ASCII only.
  - Numbers in payloads are integers, so the 0.1 score steps are exact rationals, not floating point.
- JsValues.ToString: numbers are safe integers, at most 2^53 - 1 in magnitude. Fractions, larger numbers and the exponent form `String()` uses from 10^21 on are not modelled, so `parseInt` of such a rendering is not either.
- Http.ProcessDocument: the model stops at the `Threw` outcome. The exception escapes the async handler; what follows depends on the Express version (an unhandled rejection that ends the process via server.js:535-538, or a 500 from Express's own error handler).
- RateLimit.Connect: the two `Date.now()` calls of server.js:343-347 are one `now`, so the connection time and the last request start equal; in the source they may differ by a millisecond.
- LiveDemo.TooLong: an object payload's own `length` property is not modelled. Such a question never counts as too long.
- Http.ProcessDocument: the 500 branch of server.js:207-209 is left out, because nothing in its `try` block can throw: rendering the id could, but any id whose rendering throws has already thrown in `parseInt`.
- LiveDemo.OnConnectAsWritten: the rest of the indexing demo that was already started, which timers would carry on after the throw, is not modelled. The uncaught exception reaches the handler of server.js:530-533, which ends the process.
- Chunker.ChunkTextSpec: `chunkText` is modelled for string input only. A non-string `text` would throw in `split`.

## Findings

| source | as written | input that shows it | evidently intended | confidence | as-written member | corrected member |
|---|---|---|---|---|---|---|
| server.js:375 | The guard `rateLimitSocket('indexing-demo', 3)` is applied to the handler while the listener is being registered. So it runs once per connection, counts a request, and starts an indexing demo for "sample-doc" unasked. `socket.on` then receives the guard's result, `undefined`, and throws because a listener must be a function. The same pattern at server.js:433 is never reached. No listener is registered, and the uncaught exception ends the process (server.js:530-533). | any new connection | The guard wraps the listener: every `start-indexing-demo` or `start-query-demo` event ticks the record, and the event is either rejected or handled with its payload. | not executed | LiveDemo.ConnectAsWrittenMisbehaves | LiveDemo.ThreeIndexingDemosPerWindow |
