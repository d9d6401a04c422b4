/**
 The two HTTP endpoints of the server with logic of their own:
 `POST /api/process-document` (server.js:181-212), which looks a sample document up
 by id and returns its chunks, and `POST /api/query` (server.js:215-335), which
 validates the question, embeds it, searches, builds the context, answers and
 shapes the reply.

 The embedding model, the vector index and the language model are not part of
 this model: each is a `Provider` input that is unavailable, fails, or returns a
 value, and the fallbacks of the source are the case split on it. Random numbers
 are an input `random` with values in [0, 1), like `Math.random()`.
 */
module Http {
  import opened Wrappers
  import opened Text
  import opened JsValues
  import opened Answers

  /** A sample document (server.js:133-168). Its id is a JavaScript number, a safe integer. */
  datatype Document = Document(id: SafeInt, title: string, content: string, chunks: seq<string>)

  /** `sampleData.documents` (server.js:134-167). */
  const SampleDocuments: seq<Document> := [
    Document(1, "Arrays and Time Complexity",
      "Arrays are fundamental data structures that store elements in contiguous memory locations. They provide O(1) access time for elements when the index is known. However, insertion and deletion operations can be O(n) in the worst case.",
      ["Arrays are fundamental data structures that store elements in contiguous memory locations.",
       "They provide O(1) access time for elements when the index is known.",
       "However, insertion and deletion operations can be O(n) in the worst case."]),
    Document(2, "Binary Search Algorithm",
      "Binary search is an efficient algorithm for finding an item from a sorted list of items. It works by repeatedly dividing the search interval in half. Time complexity: O(log n). The algorithm compares the target value to the middle element of the array.",
      ["Binary search is an efficient algorithm for finding an item from a sorted list of items.",
       "It works by repeatedly dividing the search interval in half. Time complexity: O(log n).",
       "The algorithm compares the target value to the middle element of the array."]),
    Document(3, "Hash Tables and Hash Functions",
      "Hash tables use hash functions to compute an index into an array of buckets or slots. They provide average O(1) time complexity for insertions, deletions, and lookups. Collision handling is important for maintaining performance.",
      ["Hash tables use hash functions to compute an index into an array of buckets or slots.",
       "They provide average O(1) time complexity for insertions, deletions, and lookups.",
       "Collision handling is important for maintaining performance."])
  ]

  /** Values of `Math.random()`: every draw is in [0, 1). */
  ghost predicate RandomSource(random: nat -> real) {
    forall n :: 0.0 <= random(n) < 1.0
  }

  /** `generateMockVector(dimension)`, drawing `random(offset)`, `random(offset + 1)`, ...:
      `dimension` values, each `(draw - 0.5) * 2`, so in [-1, 1). */
  function MockVector(dimension: nat, random: nat -> real, offset: nat): (r: seq<real>)
    requires RandomSource(random)
    ensures |r| == dimension
    ensures forall k :: 0 <= k < |r| ==> -1.0 <= r[k] < 1.0
  {
    seq(dimension, k requires 0 <= k < dimension => (random(offset + k) - 0.5) * 2.0)
  }

  // ---------------------------------------------------------------------------
  // POST /api/process-document
  // ---------------------------------------------------------------------------

  /** `documents.find(doc => doc.id === key)`, as an index; a NaN key matches nothing. */
  function FindDocument(docs: seq<Document>, key: Option<int>): (r: Option<nat>)
    ensures r.Some? ==> && key.Some? && r.value < |docs| && docs[r.value].id == key.value
                        && forall j :: 0 <= j < r.value ==> docs[j].id != key.value
    ensures r.None? ==> key.None? || forall j :: 0 <= j < |docs| ==> docs[j].id != key.value
  {
    if key.None? then None else FindFrom(docs, key.value, 0)
  }

  /** The search of `find` from index `from` on, every earlier document having missed. */
  function FindFrom(docs: seq<Document>, key: int, from: nat): (r: Option<nat>)
    requires from <= |docs| && forall j :: 0 <= j < from ==> docs[j].id != key
    ensures r.Some? ==> && r.value < |docs| && docs[r.value].id == key
                        && forall j :: 0 <= j < r.value ==> docs[j].id != key
    ensures r.None? ==> forall j :: 0 <= j < |docs| ==> docs[j].id != key
    decreases |docs| - from
  {
    if from == |docs| then None
    else if docs[from].id == key then Some(from)
    else FindFrom(docs, key, from + 1)
  }

  /** One chunk of the reply: id, text and mock embedding. */
  datatype Chunk = Chunk(id: string, content: string, vector: seq<real>)

  /** An entry of the fixed `processingSteps` list. */
  datatype StepReport = StepReport(step: string, completed: bool, duration: nat)

  /** The `processingSteps` of the reply (server.js:199-204). */
  const DocumentSteps: seq<StepReport> := [
    StepReport("Document Loading", true, 1000),
    StepReport("Text Chunking", true, 1500),
    StepReport("Vector Embedding", true, 2000),
    StepReport("Database Storage", true, 1000)
  ]

  /** The outcome: 404 `Document not found`; the document's chunks; or a throw before
      any reply, when converting the id throws in `parseInt` (server.js:182, outside the
      handler's `try`). */
  datatype ProcessReply =
    | DocumentNotFound
    | Processed(documentId: JsValue, title: string, chunks: seq<Chunk>, steps: seq<StepReport>)
    | Threw

  /** The id of chunk `index` of the document requested as `documentId`: `${documentId}-${index}`. */
  function ChunkId(documentId: JsValue, index: nat): string
    requires !StringThrows(documentId)
  {
    ToString(documentId) + "-" + NatToString(index)
  }

  /** The key `find` compares the document ids with: `parseInt(documentId)`, `None` being NaN. */
  function LookupKey(documentId: JsValue): Option<int>
    requires !StringThrows(documentId)
  {
    ParseInt(ToString(documentId))
  }

  /** Document `i` is the first with id `key`, the one `find` returns. */
  predicate FirstWithId(docs: seq<Document>, i: int, key: int) {
    0 <= i < |docs| && docs[i].id == key && forall j :: 0 <= j < i ==> docs[j].id != key
  }

  /** `POST /api/process-document` (server.js:181-210). The id is looked up with
      `parseInt`, so "2", 2, [2] and " 2px" all find document 2, and the reply echoes
      the id as sent. `find` calls its callback only when there is a document to test,
      so an id whose conversion to a string throws ends the handler exactly when the
      table is not empty; with an empty table every id gets the 404. */
  function ProcessDocument(docs: seq<Document>, body: map<string, JsValue>, random: nat -> real): (r: ProcessReply)
    requires RandomSource(random)
    ensures var documentId := Property(Obj(body), "documentId");
            && (r.Threw? <==> docs != [] && StringThrows(documentId))
            && (docs == [] ==> r == DocumentNotFound)
            && (!StringThrows(documentId) ==>
                  var key := LookupKey(documentId);
                  && (r.DocumentNotFound? <==> key.None? || forall j :: 0 <= j < |docs| ==> docs[j].id != key.value)
                  && (r.Processed? ==>
                        key.Some? && exists i :: FirstWithId(docs, i, key.value) && ServesDocument(r, documentId, docs[i])))
  {
    var documentId := Property(Obj(body), "documentId");
    if docs == [] then DocumentNotFound
    else if StringThrows(documentId) then Threw
    else
      var key := LookupKey(documentId);
      match FindDocument(docs, key)
      case None => DocumentNotFound
      case Some(i) =>
        var r := Processed(documentId, docs[i].title, DocumentChunks(documentId, docs[i], random), DocumentSteps);
        assert FirstWithId(docs, i, key.value) && ServesDocument(r, documentId, docs[i]);
        r
  }

  /** The chunks of the reply (server.js:190-194): the document's stored chunks in
      order, each with the id `${documentId}-${index}` and an 8-dimensional mock vector. */
  function DocumentChunks(documentId: JsValue, doc: Document, random: nat -> real): (r: seq<Chunk>)
    requires RandomSource(random) && !StringThrows(documentId)
    ensures |r| == |doc.chunks|
    ensures forall k :: 0 <= k < |r| ==>
              r[k].content == doc.chunks[k] && r[k].id == ChunkId(documentId, k) && |r[k].vector| == 8
  {
    seq(|doc.chunks|, k requires 0 <= k < |doc.chunks| =>
      Chunk(ChunkId(documentId, k), doc.chunks[k], MockVector(8, random, 8 * k)))
  }

  /** The reply serves `doc`: its title, one chunk per stored chunk in order, each with
      the id scheme of server.js:191 and an 8-dimensional vector. */
  predicate ServesDocument(r: ProcessReply, documentId: JsValue, doc: Document)
    requires !StringThrows(documentId)
  {
    && r.Processed?
    && r.documentId == documentId
    && r.title == doc.title
    && |r.chunks| == |doc.chunks|
    && (forall k :: 0 <= k < |r.chunks| ==>
          r.chunks[k].content == doc.chunks[k] && r.chunks[k].id == ChunkId(documentId, k)
          && |r.chunks[k].vector| == 8)
    && r.steps == DocumentSteps
  }

  /** A numeric id finds the first document with that id: `parseInt(String(n)) === n`. */
  lemma NumericIdFindsDocument(docs: seq<Document>, n: SafeInt, i: nat, random: nat -> real)
    requires RandomSource(random)
    requires i < |docs| && docs[i].id == n && forall j :: 0 <= j < i ==> docs[j].id != n
    ensures ServesDocument(ProcessDocument(docs, map["documentId" := Num(n)], random), Num(n), docs[i])
  {
    ParseIntOfToString(n);
  }

  /** An id no document has gets the 404 reply. */
  lemma UnknownDocument(docs: seq<Document>, n: SafeInt, random: nat -> real)
    requires RandomSource(random)
    requires forall j :: 0 <= j < |docs| ==> docs[j].id != n
    ensures ProcessDocument(docs, map["documentId" := Num(n)], random) == DocumentNotFound
  {
    ParseIntOfToString(n);
  }

  /** The ids of the server's own table are 1, 2 and 3. */
  lemma SampleIds()
    ensures |SampleDocuments| == 3
    ensures SampleDocuments[0].id == 1 && SampleDocuments[1].id == 2 && SampleDocuments[2].id == 3
  {
  }

  /** On the server's own table, id 2 serves "Binary Search Algorithm". */
  lemma SampleIdTwo(random: nat -> real)
    requires RandomSource(random)
    ensures ServesDocument(ProcessDocument(SampleDocuments, map["documentId" := Num(2)], random), Num(2), SampleDocuments[1])
    ensures SampleDocuments[1].title == "Binary Search Algorithm"
  {
    SampleIds();
    NumericIdFindsDocument(SampleDocuments, 2, 1, random);
  }

  /** On the server's own table, id 999 gets 404. */
  lemma SampleUnknownId(random: nat -> real)
    requires RandomSource(random)
    ensures ProcessDocument(SampleDocuments, map["documentId" := Num(999)], random) == DocumentNotFound
  {
    SampleIds();
    UnknownDocument(SampleDocuments, 999, random);
  }

  /** A request without an id is a 404 too: `parseInt("undefined")` is NaN. */
  lemma MissingDocumentId(docs: seq<Document>, random: nat -> real)
    requires RandomSource(random)
    ensures ProcessDocument(docs, map[], random) == DocumentNotFound
  {
    assert ToString(Undefined) == "undefined";
    assert TrimStart("undefined") == "undefined";
    assert DigitPrefix("undefined", 10) == [];
  }

  /** An object id with its own `toString` property, `{"toString": 1}` say, makes
      `parseInt` throw on the first document tested: the handler ends without a reply. */
  lemma ObjectIdThrows(docs: seq<Document>, props: map<string, JsValue>, random: nat -> real)
    requires RandomSource(random)
    requires docs != [] && "toString" in props
    ensures ProcessDocument(docs, map["documentId" := Obj(props)], random) == Threw
  {
  }

  /** An object id without one is the string "[object Object]", which is NaN: 404. */
  lemma PlainObjectIdNotFound(docs: seq<Document>, props: map<string, JsValue>, random: nat -> real)
    requires RandomSource(random)
    requires "toString" !in props
    ensures ProcessDocument(docs, map["documentId" := Obj(props)], random) == DocumentNotFound
  {
    var s := ToString(Obj(props));
    assert s == "[object Object]";
    assert TrimStart(s) == s;
    assert DigitPrefix(s, 10) == [];
  }

  /** The decimal rendering is one-to-one, since it parses back. */
  lemma NatToStringInjective(a: nat, b: nat)
    requires NatToString(a) == NatToString(b)
    ensures a == b
  {
    ParseUnsignedOfNatToString(a);
    ParseUnsignedOfNatToString(b);
  }

  /** The chunks of a reply have pairwise distinct ids. */
  lemma ChunkIdsDistinct(documentId: JsValue, k1: nat, k2: nat)
    requires !StringThrows(documentId)
    requires ChunkId(documentId, k1) == ChunkId(documentId, k2)
    ensures k1 == k2
  {
    var prefix := ToString(documentId) + "-";
    var id1 := ChunkId(documentId, k1);
    var id2 := ChunkId(documentId, k2);
    assert id1[|prefix|..] == NatToString(k1);
    assert id2[|prefix|..] == NatToString(k2);
    NatToStringInjective(k1, k2);
  }

  // ---------------------------------------------------------------------------
  // POST /api/query
  // ---------------------------------------------------------------------------

  /** An error reply: HTTP status, message, code, and for a 500 the details. */
  datatype ErrorReply = ErrorReply(status: nat, error: string, code: string, details: Option<string>)

  const InvalidInput: ErrorReply :=
    ErrorReply(400, "Question is required and must be a non-empty string", "INVALID_INPUT", None)
  const QuestionTooLong: ErrorReply :=
    ErrorReply(400, "Question too long. Maximum 1000 characters allowed.", "QUESTION_TOO_LONG", None)

  /** The validation of server.js:216-228: a missing, non-string or blank question is
      invalid, and only then is a question over 1000 characters too long. */
  function ValidateQuestion(question: JsValue): (r: Option<ErrorReply>)
    ensures r == Some(InvalidInput) <==> !question.Str? || Trim(question.s) == []
    ensures r == Some(QuestionTooLong) <==> question.Str? && Trim(question.s) != [] && |question.s| > 1000
    ensures r == None <==> question.Str? && Trim(question.s) != [] && |question.s| <= 1000
  {
    if !Truthy(question) || !question.Str? || |Trim(question.s)| == 0 then Some(InvalidInput)
    else if |question.s| > 1000 then Some(QuestionTooLong)
    else None
  }

  /** An external service: not configured, configured but throwing, or answering. */
  datatype Provider<T> = Unavailable | Failed | Returned(value: T)

  /** A search match; `text` is `match.metadata.text`, absent when the index returned a
      match without it. */
  datatype Match = Match(id: string, score: real, text: Option<string>)

  /** The mock search of server.js:257-264: the first three documents, best first. */
  function MockMatches(docs: seq<Document>): (r: seq<Match>)
    ensures |r| == if |docs| < 3 then |docs| else 3
    ensures forall i :: 0 <= i < |r| ==> r[i].id == ToString(Num(docs[i].id)) && r[i].text == Some(docs[i].content)
  {
    var n := if |docs| < 3 then |docs| else 3;
    seq(n, i requires 0 <= i < n => Match(ToString(Num(docs[i].id)), 0.9 - (i as real) * 0.1, Some(docs[i].content)))
  }

  /** The mock scores are 0.9, 0.8, 0.7, strictly decreasing by rank, and every mock id
      reads back as its document's id. */
  lemma MockMatchesRanked(docs: seq<Document>)
    ensures var r := MockMatches(docs);
            && (forall i :: 0 <= i < |r| ==> r[i].score == 0.9 - (i as real) * 0.1)
            && (forall i, j :: 0 <= i < j < |r| ==> r[i].score > r[j].score)
            && (forall i :: 0 <= i < |r| ==> ParseInt(r[i].id) == Some(docs[i].id))
  {
    var r := MockMatches(docs);
    forall i | 0 <= i < |r| ensures ParseInt(r[i].id) == Some(docs[i].id) {
      ParseIntOfToString(docs[i].id);
    }
  }

  /** The separator between the texts of the context (server.js:267). */
  const ContextSeparator: string := "\n\n---\n\n"

  /** Every match carries its text. */
  predicate AllHaveText(matches: seq<Match>) {
    forall i :: 0 <= i < |matches| ==> matches[i].text.Some?
  }

  /** The texts of the matches, in order. */
  function Texts(matches: seq<Match>): (r: seq<string>)
    requires AllHaveText(matches)
    ensures |r| == |matches| && forall i :: 0 <= i < |r| ==> Some(r[i]) == matches[i].text
  {
    seq(|matches|, i requires 0 <= i < |matches| => matches[i].text.value)
  }

  /** `text.substring(0, n) + '...'`. */
  function Preview(text: string, n: nat): (r: string)
    ensures var kept := if |text| < n then |text| else n;
            |r| == kept + 3 && r[..kept] == text[..kept] && r[kept..] == "..."
  {
    (if |text| < n then text else text[..n]) + "..."
  }

  /** A match as the reply lists it: its id, score, and the first 100 characters of its text. */
  datatype MatchPreview = MatchPreview(id: string, score: real, content: string)

  /** The successful reply of `/api/query`, without the timings and timestamp. */
  datatype QueryReply = QueryReply(
    question: string, queryVector: seq<real>, searchResults: seq<MatchPreview>,
    context: string, response: string, vectorDimensions: nat, contextLength: nat)

  /** The outcome of `/api/query`: a 400 from validation, a 500 from the pipeline, or the reply. */
  datatype QueryOutcome = Invalid(error: ErrorReply) | ServerError(error: ErrorReply) | Ok(reply: QueryReply)

  /** The 500 reply; its details are redacted in production (server.js:327-332). */
  function ProcessingError(production: bool, errorMessage: string): ErrorReply {
    ErrorReply(500, "Query processing failed", "PROCESSING_ERROR",
               Some(if production then "Internal server error" else errorMessage))
  }

  /** The matches the pipeline works on: the index's when it answers, else the mock ones. */
  function SearchMatches(search: Provider<seq<Match>>, docs: seq<Document>): seq<Match> {
    if search.Returned? then search.value else MockMatches(docs)
  }

  /** `POST /api/query` (server.js:215-335). A match without text makes the context or
      the preview throw, which the handler turns into a 500 whose details are the
      exception's message `errorMessage` outside production. */
  function Query(body: map<string, JsValue>, embedding: Provider<seq<real>>, search: Provider<seq<Match>>,
                 generation: Provider<string>, docs: seq<Document>, random: nat -> real,
                 production: bool, errorMessage: string): (r: QueryOutcome)
    requires RandomSource(random)
    ensures var question := Property(Obj(body), "question");
            && (r.Invalid? <==> ValidateQuestion(question).Some?)
            && (r.Invalid? ==> r.error == ValidateQuestion(question).value)
            && (r.ServerError? <==> ValidateQuestion(question).None? && !AllHaveText(SearchMatches(search, docs)))
            && (r.ServerError? ==> r.error.status == 500
                                   && r.error.details == Some(if production then "Internal server error" else errorMessage))
            && (r.Ok? ==> question.Str? && r.reply.question == question.s)
            && (r.Ok? && generation.Returned? ==> r.reply.response == generation.value)
            && (r.Ok? && !generation.Returned? ==>
                  Answered(ServerTable, ServerFallback, question.s, r.reply.response))
  {
    var question := Property(Obj(body), "question");
    match ValidateQuestion(question)
    case Some(error) => Invalid(error)
    case None =>
      var vector := if embedding.Returned? then embedding.value else MockVector(8, random, 0);
      var matches := SearchMatches(search, docs);
      if !AllHaveText(matches) then ServerError(ProcessingError(production, errorMessage))
      else
        var texts := Texts(matches);
        var context := Join(texts, ContextSeparator);
        var response := if generation.Returned? then generation.value else ServerMockResponse(question.s, context);
        var previews := seq(|matches|, i requires 0 <= i < |matches| =>
          MatchPreview(matches[i].id, matches[i].score, Preview(texts[i], 100)));
        Ok(QueryReply(question.s, if |vector| < 8 then vector else vector[..8], previews,
                      Preview(context, 500), response, |vector|, |context|))
  }

  /** The shape of a successful reply: at most eight leading dimensions of the query
      vector, which has as many as `vectorDimensions`; one preview per match, in order;
      the context and its length. */
  lemma QueryReplyShape(body: map<string, JsValue>, embedding: Provider<seq<real>>, search: Provider<seq<Match>>,
                        generation: Provider<string>, docs: seq<Document>, random: nat -> real,
                        production: bool, errorMessage: string)
    requires RandomSource(random)
    requires Query(body, embedding, search, generation, docs, random, production, errorMessage).Ok?
    ensures var reply := Query(body, embedding, search, generation, docs, random, production, errorMessage).reply;
            var matches := SearchMatches(search, docs);
            var context := Join(Texts(matches), ContextSeparator);
            && AllHaveText(matches)
            && |reply.queryVector| <= 8 && reply.vectorDimensions >= |reply.queryVector|
            && (embedding.Returned? ==> reply.vectorDimensions == |embedding.value|)
            && (!embedding.Returned? ==> reply.vectorDimensions == 8 && |reply.queryVector| == 8)
            && |reply.searchResults| == |matches|
            && (forall i :: 0 <= i < |matches| ==>
                  reply.searchResults[i].id == matches[i].id && reply.searchResults[i].score == matches[i].score
                  && reply.searchResults[i].content == Preview(matches[i].text.value, 100))
            && reply.contextLength == |context| && reply.context == Preview(context, 500)
  {
  }

  /** The context is the texts of the matches with a 7-character separator between
      neighbours, so `contextLength` is their total length plus 7 per separator. */
  lemma ContextLength(matches: seq<Match>)
    requires AllHaveText(matches) && matches != []
    ensures |Join(Texts(matches), ContextSeparator)| == TotalLength(Texts(matches)) + 7 * (|matches| - 1)
  {
    JoinLength(Texts(matches), ContextSeparator);
  }

  /** With no language model, the answer is the canned answer for the question; so with
      neither index nor model, a question about binary search gets the binary-search
      answer, from a context of the first three documents. */
  lemma FallbackPipeline(question: string, docs: seq<Document>, embedding: Provider<seq<real>>,
                         random: nat -> real, production: bool, errorMessage: string)
    requires RandomSource(random)
    requires Trim(question) != [] && |question| <= 1000
    requires Contains(Lower(question), "binary search")
    ensures var r := Query(map["question" := Str(question)], embedding, Unavailable, Unavailable,
                           docs, random, production, errorMessage);
            && r.Ok?
            && r.reply.response == ServerTable[0].1
            && |r.reply.searchResults| == (if |docs| < 3 then |docs| else 3)
            && forall i :: 0 <= i < |r.reply.searchResults| ==> r.reply.searchResults[i].id == ToString(Num(docs[i].id))
  {
    var matches := MockMatches(docs);
    assert AllHaveText(matches);
    BinarySearchFirst(question, Join(Texts(matches), ContextSeparator));
  }

  /** The blank check comes first: a blank question is invalid however long it is. */
  lemma BlankBeforeLength(question: string)
    requires AllSpace(question)
    ensures ValidateQuestion(Str(question)) == Some(InvalidInput)
  {
    TrimEmptyIffAllSpace(question);
  }

  /** The length bound is inclusive: a non-blank question of exactly 1000 characters is
      accepted and one of 1001 is too long. */
  lemma LengthBoundary(question: string)
    requires Trim(question) != []
    ensures |question| == 1000 ==> ValidateQuestion(Str(question)) == None
    ensures |question| == 1001 ==> ValidateQuestion(Str(question)) == Some(QuestionTooLong)
  {
  }
}
