/**
 The canned answers of the mock language model (`generateMockResponse`), in its two
 versions: the server's (server.js:511-527) and the command-line demo's
 (demo.js:203-218). Both lower-case the question and return the answer of the FIRST
 key, in table order, that occurs in it, or a fallback when none does.
 */
module Answers {
  import opened Text

  /** Keys and answers, in the insertion order `Object.entries` visits them. */
  type Table = seq<(string, string)>

  /** Key `i` is the first key of the table that occurs in the lower-cased question. */
  predicate Wins(table: Table, question: string, i: int) {
    && 0 <= i < |table|
    && Contains(Lower(question), table[i].0)
    && forall j :: 0 <= j < i ==> !Contains(Lower(question), table[j].0)
  }

  /** No key of the table occurs in the lower-cased question. */
  predicate NoKeyOccurs(table: Table, question: string) {
    forall j :: 0 <= j < |table| ==> !Contains(Lower(question), table[j].0)
  }

  /** The answer the lookup must give: the winning key's answer, or the fallback. */
  predicate Answered(table: Table, fallback: string, question: string, r: string) {
    || (exists i :: 0 <= i < |table| && Wins(table, question, i) && r == table[i].1)
    || (NoKeyOccurs(table, question) && r == fallback)
  }

  /** The `for ... of` over the entries from entry `from` on, keys before `from` having missed. */
  function SelectFrom(table: Table, fallback: string, question: string, from: nat): (r: string)
    requires from <= |table|
    requires forall j :: 0 <= j < from ==> !Contains(Lower(question), table[j].0)
    ensures Answered(table, fallback, question, r)
    decreases |table| - from
  {
    if from == |table| then fallback
    else if Contains(Lower(question), table[from].0) then
      assert Wins(table, question, from);
      table[from].1
    else SelectFrom(table, fallback, question, from + 1)
  }

  /** The lookup shared by both versions of `generateMockResponse`. */
  function SelectAnswer(table: Table, fallback: string, question: string): (r: string)
    ensures Answered(table, fallback, question, r)
  {
    SelectFrom(table, fallback, question, 0)
  }

  /** The lookup as the loop with an early `return` that the source writes. */
  method SelectAnswerLoop(table: Table, fallback: string, question: string) returns (r: string)
    ensures Answered(table, fallback, question, r)
  {
    var lowered := Lower(question);
    var i := 0;
    while i < |table|
      invariant 0 <= i <= |table|
      invariant forall j :: 0 <= j < i ==> !Contains(lowered, table[j].0)
    {
      var (key, value) := table[i];
      if Contains(lowered, key) {
        assert Wins(table, question, i);
        return value;
      }
      i := i + 1;
    }
    return fallback;
  }

  /** At most one key wins, so the answer is determined by the question alone. */
  lemma WinnerUnique(table: Table, question: string, i: int, j: int)
    requires Wins(table, question, i) && Wins(table, question, j)
    ensures i == j
  {
  }

  /** Any two answers that both meet the specification are the same string. */
  lemma AnswerDetermined(table: Table, fallback: string, question: string, r1: string, r2: string)
    requires Answered(table, fallback, question, r1) && Answered(table, fallback, question, r2)
    ensures r1 == r2
  {
    if !NoKeyOccurs(table, question) {
      var i1 :| 0 <= i1 < |table| && Wins(table, question, i1) && r1 == table[i1].1;
      var i2 :| 0 <= i2 < |table| && Wins(table, question, i2) && r2 == table[i2].1;
      WinnerUnique(table, question, i1, i2);
    }
  }

  /** The server's table (server.js:512-517). */
  const ServerTable: Table := [
    ("binary search", "Binary search has O(log n) time complexity. It works by repeatedly dividing the search interval in half."),
    ("hash table", "Hash tables provide O(1) average time complexity for insertions, deletions, and lookups using hash functions."),
    ("array", "Arrays provide O(1) access time when the index is known, but insertions and deletions can be O(n)."),
    ("time complexity", "Time complexity describes how the runtime of an algorithm grows with input size.")
  ]

  /** The server's answer when no key occurs (server.js:526). */
  const ServerFallback: string :=
    "Based on the provided context about data structures and algorithms, I can help answer questions about arrays, search algorithms, hash tables, and time complexity analysis."

  /** The demo's table (demo.js:204-208): no hash-table entry, and "time complexity" before "array". */
  const DemoTable: Table := [
    ("binary search", "Binary search has O(log n) time complexity. It works by repeatedly dividing the search interval in half, which makes it very efficient for sorted data."),
    ("time complexity", "Time complexity describes how the runtime of an algorithm grows with input size. Common complexities include O(1), O(log n), O(n), and O(n²)."),
    ("array", "Arrays provide O(1) access time when the index is known, but insertions and deletions can be O(n) when elements need to be shifted.")
  ]

  /** The demo's answer when no key occurs (demo.js:217). */
  const DemoFallback: string :=
    "Based on the provided context about data structures and algorithms, I can help answer questions about arrays, search algorithms, and complexity analysis."

  /** The server's `generateMockResponse(question, context)`; the retrieved context does
      not influence the answer. */
  function ServerMockResponse(question: string, context: string): (r: string)
    ensures Answered(ServerTable, ServerFallback, question, r)
  {
    SelectAnswer(ServerTable, ServerFallback, question)
  }

  /** The demo's `generateMockResponse(query)`. */
  function DemoMockResponse(query: string): (r: string)
    ensures Answered(DemoTable, DemoFallback, query, r)
  {
    SelectAnswer(DemoTable, DemoFallback, query)
  }

  /** The answer meeting the specification is the winner's. */
  lemma WinnerAnswer(table: Table, fallback: string, question: string, i: int, r: string)
    requires Wins(table, question, i) && Answered(table, fallback, question, r)
    ensures r == table[i].1
  {
    var i' :| 0 <= i' < |table| && Wins(table, question, i') && r == table[i'].1;
    WinnerUnique(table, question, i, i');
  }

  /** No upper-case ASCII letter occurs in `s`. */
  predicate NoUpper(s: string) {
    forall c :: c in s ==> !('A' <= c <= 'Z')
  }

  /** A key without upper-case letters occurs in the lower-cased question when the
      question has it verbatim. */
  lemma KeyInQuestion(before: string, key: string, after: string)
    requires NoUpper(key)
    ensures Contains(Lower(before + key + after), key)
  {
    var q := before + key + after;
    var at := |before|;
    forall k | 0 <= k < |key| ensures Lower(q)[at..at + |key|][k] == key[k] {
      assert q[at + k] == key[k];
      assert key[k] in key;
    }
    assert OccursAt(Lower(q), key, at);
  }

  /** A key holding a lower-case letter that the question holds in neither case does not
      occur in the lower-cased question. */
  lemma KeyNotInQuestion(question: string, key: string, c: char)
    requires 'a' <= c <= 'z' && c in key
    requires c !in question && (c as int - 32) as char !in question
    ensures !Contains(Lower(question), key)
  {
    var hay := Lower(question);
    var k :| 0 <= k < |key| && key[k] == c;
    forall at | 0 <= at <= |hay| - |key| ensures !OccursAt(hay, key, at) {
      assert question[at + k] in question;
      assert hay[at..at + |key|][k] == hay[at + k] != c;
    }
  }

  /** Any question that mentions binary search gets the binary-search answer from both
      tables, "binary search" being the first key of each. */
  lemma BinarySearchFirst(question: string, context: string)
    requires Contains(Lower(question), "binary search")
    ensures ServerMockResponse(question, context) == ServerTable[0].1
    ensures DemoMockResponse(question) == DemoTable[0].1
  {
    assert Wins(ServerTable, question, 0) && Wins(DemoTable, question, 0);
    WinnerAnswer(ServerTable, ServerFallback, question, 0, ServerMockResponse(question, context));
    WinnerAnswer(DemoTable, DemoFallback, question, 0, DemoMockResponse(question));
  }

  /** Only the server knows about hash tables: a question about them and nothing else the
      tables know gets the server's hash-table answer and the demo's fallback. */
  lemma HashTableServerOnly(question: string, context: string)
    requires Contains(Lower(question), "hash table")
    requires !Contains(Lower(question), "binary search")
    requires !Contains(Lower(question), "time complexity") && !Contains(Lower(question), "array")
    ensures ServerMockResponse(question, context) == ServerTable[1].1
    ensures DemoMockResponse(question) == DemoFallback
  {
    assert Wins(ServerTable, question, 1);
    WinnerAnswer(ServerTable, ServerFallback, question, 1, ServerMockResponse(question, context));
    assert NoKeyOccurs(DemoTable, question);
  }

  /** Table order decides between keys that both occur: for a question about the time
      complexity of arrays the server answers about arrays, the demo about time complexity. */
  lemma KeyOrderMatters(question: string, context: string)
    requires Contains(Lower(question), "array") && Contains(Lower(question), "time complexity")
    requires !Contains(Lower(question), "binary search") && !Contains(Lower(question), "hash table")
    ensures ServerMockResponse(question, context) == ServerTable[2].1
    ensures DemoMockResponse(question) == DemoTable[1].1
  {
    assert Wins(ServerTable, question, 2);
    assert Wins(DemoTable, question, 1);
    WinnerAnswer(ServerTable, ServerFallback, question, 2, ServerMockResponse(question, context));
    WinnerAnswer(DemoTable, DemoFallback, question, 1, DemoMockResponse(question));
  }

  /** A question without ASCII letters, white space only say, matches no key and gets
      each table's fallback. */
  lemma NoLetterQuestion(question: string, context: string)
    requires forall c :: c in question ==> !('a' <= c <= 'z') && !('A' <= c <= 'Z')
    ensures ServerMockResponse(question, context) == ServerFallback
    ensures DemoMockResponse(question) == DemoFallback
  {
    forall key | key in ["binary search", "hash table", "array", "time complexity"]
      ensures !Contains(Lower(question), key)
    {
      KeyNotInQuestion(question, key, key[0]);
    }
    assert NoKeyOccurs(ServerTable, question);
    assert NoKeyOccurs(DemoTable, question);
  }

  /** The default question of the demo walkthrough (demo.js:96) mentions binary search. */
  lemma WalkthroughQuestion()
    ensures Contains(Lower("What is the time complexity of binary search?"), "binary search")
  {
    assert "What is the time complexity of binary search?" == "What is the time complexity of " + "binary search" + "?";
    KeyInQuestion("What is the time complexity of ", "binary search", "?");
  }
}
