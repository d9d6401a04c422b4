/**
 The sentence chunker of the command-line demo (`chunkText`, demo.js:181-197).

 The text is split on maximal runs of `.`, `!` and `?`; fragments that are blank
 after trimming are dropped; the remaining sentences are packed greedily, in
 order, into chunks. The packing test looks at the chunk built so far plus the
 UNTRIMMED sentence, while the chunk grows by the trimmed sentence followed by
 ". "; a finished chunk is trimmed, which removes the final space.

 The specification of the packing is `ValidGrouping`: the chunks correspond to a
 partition of the sentences into consecutive non-empty groups such that a
 sentence joins the group being built exactly when it fits. `ChunkTextSpec`
 proves the chunker meets it and `GroupingUnique` proves it admits one grouping only.
 */
module Chunker {
  import opened Text

  /** The characters of the regular expression `/[.!?]+/`. */
  predicate IsPunct(c: char) {
    c == '.' || c == '!' || c == '?'
  }

  predicate PunctFree(s: string) {
    forall k :: 0 <= k < |s| ==> !IsPunct(s[k])
  }

  predicate AllPunct(s: string) {
    forall k :: 0 <= k < |s| ==> IsPunct(s[k])
  }

  /** Index of the first punctuation character, or `|s|` when there is none. */
  function FirstPunct(s: string): (i: nat)
    ensures i <= |s| && PunctFree(s[..i])
    ensures i < |s| ==> IsPunct(s[i])
  {
    if s == [] || IsPunct(s[0]) then 0
    else
      1 + FirstPunct(s[1..])
  }

  /** End of the run of punctuation that starts at `i`. */
  function RunEnd(s: string, i: nat): (j: nat)
    requires i <= |s|
    ensures i <= j <= |s| && AllPunct(s[i..j])
    ensures j == |s| || !IsPunct(s[j])
    decreases |s| - i
  {
    if i < |s| && IsPunct(s[i]) then
      var j := RunEnd(s, i + 1);
      assert forall k :: 0 < k < j - i ==> s[i..j][k] == s[i + 1..j][k - 1];
      j
    else i
  }

  /** `text.split(/[.!?]+/)`: the fragments between maximal runs of punctuation. */
  function Split(s: string): (r: seq<string>)
    ensures r != []
    decreases |s|
  {
    var i := FirstPunct(s);
    if i == |s| then [s] else [s[..i]] + Split(s[RunEnd(s, i)..])
  }

  /** The runs of punctuation `Split` cuts at, in order. */
  function Runs(s: string): seq<string>
    decreases |s|
  {
    var i := FirstPunct(s);
    if i == |s| then [] else [s[i..RunEnd(s, i)]] + Runs(s[RunEnd(s, i)..])
  }

  /** Fragments with the separators put back between them. */
  function Interleave(frags: seq<string>, seps: seq<string>): string
    requires |frags| == |seps| + 1
  {
    if |frags| == 1 then frags[0]
    else frags[0] + seps[0] + Interleave(frags[1..], seps[1..])
  }

  /** The split is a decomposition of the text: the fragments contain no punctuation,
      the separators are non-empty runs of punctuation, and putting the separators back
      between the fragments gives the text again. Since no fragment holds punctuation,
      every separator is a maximal run, as the `+` of the regular expression demands. */
  lemma SplitReassembles(s: string)
    ensures |Split(s)| == |Runs(s)| + 1
    ensures Interleave(Split(s), Runs(s)) == s
    ensures forall k :: 0 <= k < |Split(s)| ==> PunctFree(Split(s)[k])
    ensures forall k :: 0 <= k < |Runs(s)| ==> Runs(s)[k] != [] && AllPunct(Runs(s)[k])
  {
    SplitInterleave(s);
    FragmentsPunctFree(s);
    RunsArePunct(s);
  }

  /** Putting the runs back between the fragments gives the text. */
  lemma {:induction false} SplitInterleave(s: string)
    ensures |Split(s)| == |Runs(s)| + 1
    ensures Interleave(Split(s), Runs(s)) == s
    decreases |s|
  {
    var i := FirstPunct(s);
    if i < |s| {
      var j := RunEnd(s, i);
      var rest := s[j..];
      SplitStep(s);
      SplitInterleave(rest);
      InterleaveCons(s[..i], s[i..j], Split(rest), Runs(rest));
    } else {
      assert s[..i] == s;
    }
  }

  /** One step of the split: the fragment before the first run, the run, and the rest. */
  lemma SplitStep(s: string)
    requires FirstPunct(s) < |s|
    ensures var i := FirstPunct(s);
            var j := RunEnd(s, i);
            && Split(s) == [s[..i]] + Split(s[j..])
            && Runs(s) == [s[i..j]] + Runs(s[j..])
            && s == s[..i] + s[i..j] + s[j..]
  {
    var i := FirstPunct(s);
    var j := RunEnd(s, i);
    assert Split(s) == [s[..i]] + Split(s[j..]);
    assert Runs(s) == [s[i..j]] + Runs(s[j..]);
    SliceSplit(s, i, j);
  }

  /** A sequence is its three slices at two cut points, put back together. */
  lemma SliceSplit<T>(s: seq<T>, i: nat, j: nat)
    requires i <= j <= |s|
    ensures s == s[..i] + s[i..j] + s[j..]
  {
    assert s[..i] + s[i..j] == s[..j];
  }

  /** Interleaving a fragment and a separator in front of the rest. */
  lemma InterleaveCons(f: string, r: string, fs: seq<string>, rs: seq<string>)
    requires |fs| == |rs| + 1
    ensures Interleave([f] + fs, [r] + rs) == f + r + Interleave(fs, rs)
  {
    DropCons(f, fs);
    DropCons(r, rs);
  }

  /** Dropping the head of a cons gives the tail (stated generically, which the solver
      finds easier than for sequences of strings). */
  lemma DropCons<T>(x: T, xs: seq<T>)
    ensures ([x] + xs)[1..] == xs
  {
  }

  /** The tail of a concatenation with a non-empty front. */
  lemma TailAppend<T>(a: seq<T>, b: seq<T>)
    requires a != []
    ensures (a + b)[1..] == a[1..] + b
  {
  }

  /** No fragment holds punctuation. */
  lemma {:induction false} FragmentsPunctFree(s: string)
    ensures forall k :: 0 <= k < |Split(s)| ==> PunctFree(Split(s)[k])
    decreases |s|
  {
    var i := FirstPunct(s);
    var fs := Split(s);
    if i < |s| {
      var rest := s[RunEnd(s, i)..];
      FragmentsPunctFree(rest);
      assert fs == [s[..i]] + Split(rest);
      forall k | 0 <= k < |fs| ensures PunctFree(fs[k]) {
        if k > 0 { assert fs[k] == Split(rest)[k - 1]; }
      }
    } else {
      assert fs == [s];
      assert s[..i] == s;
    }
  }

  /** Every run is a non-empty run of punctuation. */
  lemma {:induction false} RunsArePunct(s: string)
    ensures forall k :: 0 <= k < |Runs(s)| ==> Runs(s)[k] != [] && AllPunct(Runs(s)[k])
    decreases |s|
  {
    var i := FirstPunct(s);
    var rs := Runs(s);
    if i < |s| {
      var j := RunEnd(s, i);
      var rest := s[j..];
      RunsArePunct(rest);
      assert rs == [s[i..j]] + Runs(rest);
      forall k | 0 <= k < |rs| ensures rs[k] != [] && AllPunct(rs[k]) {
        if k > 0 { assert rs[k] == Runs(rest)[k - 1]; } else { assert rs[0][0] == s[i]; }
      }
    }
  }

  /** A fragment survives the filter of demo.js:182 when it is not blank after trimming. */
  predicate NonBlank(f: string) {
    Trim(f) != []
  }

  /** `fragments.filter(s => s.trim().length > 0)`. */
  function Keep(fs: seq<string>): (r: seq<string>)
    ensures |r| <= |fs|
    ensures forall k :: 0 <= k < |r| ==> NonBlank(r[k])
  {
    if fs == [] then []
    else (if NonBlank(fs[0]) then [fs[0]] else []) + Keep(fs[1..])
  }

  /** The filter keeps order and distributes over concatenation, so it keeps exactly the
      non-blank fragments, each once, in their original order. */
  lemma {:induction false} KeepAppend(a: seq<string>, b: seq<string>)
    ensures Keep(a + b) == Keep(a) + Keep(b)
    decreases |a|
  {
    if a != [] {
      KeepAppend(a[1..], b);
      var head := if NonBlank(a[0]) then [a[0]] else [];
      assert (a + b)[0] == a[0];
      TailAppend(a, b);
      assert Keep(a + b) == head + Keep(a[1..] + b);
      assert Keep(a) == head + Keep(a[1..]);
      AppendAssoc(head, Keep(a[1..]), Keep(b));
    } else {
      assert a + b == b;
    }
  }

  /** The kept sentences of a text, untrimmed, in order. */
  function Sentences(text: string): seq<string> {
    Keep(Split(text))
  }

  /** What one kept sentence adds to the chunk being built (demo.js:188 and :191). */
  function Piece(s: string): string {
    Trim(s) + ". "
  }

  /** The text of the chunk being built after the sentences of `g` were added. */
  function Pieces(g: seq<string>): string {
    if g == [] then [] else Pieces(g[..|g| - 1]) + Piece(g[|g| - 1])
  }

  /** The state of the `forEach` of demo.js:186-193: the chunks pushed so far and `currentChunk`. */
  datatype Acc = Acc(chunks: seq<string>, current: string)

  /** One iteration of the `forEach` body (demo.js:187-192). */
  function Step(a: Acc, sentence: string, maxLength: int): Acc {
    if |a.current + sentence| <= maxLength then
      Acc(a.chunks, a.current + Piece(sentence))
    else
      Acc(if a.current != [] then a.chunks + [Trim(a.current)] else a.chunks, Piece(sentence))
  }

  /** The state after the `forEach` has visited every sentence of `ss`, in order. */
  function Scan(ss: seq<string>, maxLength: int): Acc {
    if ss == [] then Acc([], []) else Step(Scan(ss[..|ss| - 1], maxLength), ss[|ss| - 1], maxLength)
  }

  /** The final push of demo.js:195. */
  function Flush(a: Acc): seq<string> {
    if a.current != [] then a.chunks + [Trim(a.current)] else a.chunks
  }

  /** `chunkText(text, maxLength)`. */
  function ChunkText(text: string, maxLength: int): seq<string> {
    Flush(Scan(Sentences(text), maxLength))
  }

  // ---------------------------------------------------------------------------
  // The specification: groups of consecutive sentences
  // ---------------------------------------------------------------------------

  /** The groups one after the other. */
  function Flatten(groups: seq<seq<string>>): seq<string> {
    if groups == [] then [] else Flatten(groups[..|groups| - 1]) + groups[|groups| - 1]
  }

  /** Sentence `k` of group `g` joined the chunk: the chunk built from the sentences
      before it, plus the sentence as it came out of the split, was within the bound. */
  predicate Fits(g: seq<string>, k: nat, maxLength: int)
    requires k < |g|
  {
    |Pieces(g[..k])| + |g[k]| <= maxLength
  }

  /** Sentence `s` did not fit after the chunk built from group `prev`. */
  predicate Overflows(prev: seq<string>, s: string, maxLength: int) {
    |Pieces(prev)| + |s| > maxLength
  }

  /** `groups` partitions `ss` into consecutive non-empty groups, every sentence after
      the first of a group fitted, and the first sentence of every group but the first
      did not fit after the previous group. */
  predicate ValidGrouping(groups: seq<seq<string>>, ss: seq<string>, maxLength: int) {
    && (forall i :: 0 <= i < |groups| ==> groups[i] != [])
    && Flatten(groups) == ss
    && (forall i, k :: 0 <= i < |groups| && 0 < k < |groups[i]| ==> Fits(groups[i], k, maxLength))
    && (forall i :: 0 < i < |groups| ==> Overflows(groups[i - 1], groups[i][0], maxLength))
  }

  /** The grouping the chunker builds, one sentence at a time. */
  function Grouping(ss: seq<string>, maxLength: int): seq<seq<string>> {
    if ss == [] then []
    else
      var groups := Grouping(ss[..|ss| - 1], maxLength);
      var s := ss[|ss| - 1];
      if groups != [] && !Overflows(groups[|groups| - 1], s, maxLength) then
        groups[..|groups| - 1] + [groups[|groups| - 1] + [s]]
      else
        groups + [[s]]
  }

  /** Each sentence of a group, trimmed and followed by a period. */
  function Periods(g: seq<string>): seq<string> {
    seq(|g|, k requires 0 <= k < |g| => Trim(g[k]) + ".")
  }

  /** The text of the chunk a group becomes. */
  function Render(g: seq<string>): string {
    Trim(Pieces(g))
  }

  /** The chunk being built is a non-empty string that starts with a non-space and ends with ". ". */
  lemma {:induction false} PiecesShape(g: seq<string>)
    requires g != []
    ensures |Pieces(g)| >= 2 && !IsSpace(Pieces(g)[0])
    ensures Pieces(g)[|Pieces(g)| - 2..] == ". "
  {
    if |g| == 1 {
      TrimShape(g[0]);
      assert Pieces(g) == Pieces([]) + Piece(g[0]);
    } else {
      PiecesShape(g[..|g| - 1]);
    }
  }

  /** Building a chunk adds, for each sentence, the trimmed sentence, a period and one space. */
  lemma {:induction false} PiecesAsJoin(g: seq<string>)
    requires g != []
    ensures Pieces(g) == Join(Periods(g), " ") + " "
  {
    var n := |g|;
    if n == 1 {
      assert Pieces(g) == Pieces([]) + Piece(g[0]);
    } else {
      PiecesAsJoin(g[..n - 1]);
      assert Periods(g)[..n - 1] == Periods(g[..n - 1]);
    }
  }

  /** A chunk is its group's sentences, each trimmed and followed by a period, separated
      by single spaces: the trailing space of the chunk being built is what `trim` removes. */
  lemma RenderAsJoin(g: seq<string>)
    requires g != []
    ensures Render(g) == Join(Periods(g), " ")
    ensures |Render(g)| == |Pieces(g)| - 1
  {
    PiecesShape(g);
    PiecesAsJoin(g);
    var p := Pieces(g);
    var j := Join(Periods(g), " ");
    assert p[|p| - 2] == '.';
    assert j == p[..|p| - 1];
    TrimDropsTrailingSpace(j);
  }

  /** The state of the `forEach` corresponds to a grouping: one finished chunk per group
      but the last, and the chunk being built is the last group's. */
  predicate Mirrors(a: Acc, groups: seq<seq<string>>) {
    && |a.chunks| == (if groups == [] then 0 else |groups| - 1)
    && (forall i :: 0 <= i < |a.chunks| ==> a.chunks[i] == Render(groups[i]))
    && a.current == (if groups == [] then [] else Pieces(groups[|groups| - 1]))
  }

  /** A sentence that fits joins the chunk being built, and the last group. */
  lemma MirrorsJoin(a: Acc, groups: seq<seq<string>>, s: string, maxLength: int)
    requires Mirrors(a, groups) && groups != []
    requires !Overflows(groups[|groups| - 1], s, maxLength)
    ensures Mirrors(Step(a, s, maxLength), groups[..|groups| - 1] + [groups[|groups| - 1] + [s]])
  {
    var m := |groups| - 1;
    var last := groups[m] + [s];
    var next := groups[..m] + [last];
    assert last[..|last| - 1] == groups[m];
    assert Step(a, s, maxLength) == Acc(a.chunks, Pieces(last));
    forall i | 0 <= i < |a.chunks| ensures a.chunks[i] == Render(next[i]) {
      assert next[i] == groups[i];
    }
  }

  /** A sentence that does not fit, or the first sentence, starts a new chunk and group. */
  lemma MirrorsNew(a: Acc, groups: seq<seq<string>>, s: string, maxLength: int)
    requires Mirrors(a, groups) && (groups == [] || groups[|groups| - 1] != [])
    requires groups == [] || Overflows(groups[|groups| - 1], s, maxLength)
    ensures Mirrors(Step(a, s, maxLength), groups + [[s]])
  {
    var b := Step(a, s, maxLength);
    var next := groups + [[s]];
    assert Pieces([s]) == Piece(s) by { assert [s][..0] == []; }
    if groups != [] {
      var m := |groups| - 1;
      assert a.current != [] by { PiecesNonEmpty(groups[m]); }
      assert b.chunks == a.chunks + [Render(groups[m])];
      forall i | 0 <= i < |b.chunks| ensures b.chunks[i] == Render(next[i]) {
        if i < m {
          assert b.chunks[i] == a.chunks[i];
        }
      }
    }
  }

  /** A chunk being built from at least one sentence is not empty. */
  lemma PiecesNonEmpty(g: seq<string>)
    requires g != []
    ensures Pieces(g) != []
  {
    assert |Piece(g[|g| - 1])| >= 2;
  }

  /** The state of the `forEach` after any prefix mirrors the grouping of that prefix. */
  lemma {:induction false} ScanMatchesGrouping(ss: seq<string>, maxLength: int)
    ensures Mirrors(Scan(ss, maxLength), Grouping(ss, maxLength))
  {
    if ss != [] {
      var init := ss[..|ss| - 1];
      var s := ss[|ss| - 1];
      ScanMatchesGrouping(init, maxLength);
      var groups := Grouping(init, maxLength);
      GroupingLast(ss, maxLength);
      if groups != [] && !Overflows(groups[|groups| - 1], s, maxLength) {
        MirrorsJoin(Scan(init, maxLength), groups, s, maxLength);
      } else {
        GroupingValid(init, maxLength);
        MirrorsNew(Scan(init, maxLength), groups, s, maxLength);
      }
    }
  }

  /** Appending a sentence that fits to the last group keeps a grouping valid. */
  lemma ExtendLastGroup(groups: seq<seq<string>>, init: seq<string>, s: string, maxLength: int)
    requires ValidGrouping(groups, init, maxLength)
    requires groups != [] && !Overflows(groups[|groups| - 1], s, maxLength)
    ensures ValidGrouping(groups[..|groups| - 1] + [groups[|groups| - 1] + [s]], init + [s], maxLength)
  {
    var m := |groups| - 1;
    var result := groups[..m] + [groups[m] + [s]];
    ExtendFlatten(groups, s);
    ExtendFits(groups, s, maxLength);
    forall i | 0 < i < |result|
      ensures Overflows(result[i - 1], result[i][0], maxLength)
    {
      assert result[i][0] == groups[i][0];
      assert result[i - 1] == groups[i - 1];
    }
  }

  /** Appending to the last group appends to the flattening. */
  lemma ExtendFlatten(groups: seq<seq<string>>, s: string)
    requires groups != []
    ensures var m := |groups| - 1;
            Flatten(groups[..m] + [groups[m] + [s]]) == Flatten(groups) + [s]
  {
    var m := |groups| - 1;
    var front := groups[..m];
    var last := groups[m];
    var a := Flatten(front);
    FlattenSnoc(front, last + [s]);
    assert Flatten(groups) == a + last;
    AppendAssoc(a, last, [s]);
  }

  /** Concatenation is associative (stated generically, which the solver finds easier
      than for sequences of strings). */
  lemma AppendAssoc<T>(a: seq<T>, b: seq<T>, c: seq<T>)
    ensures a + (b + c) == (a + b) + c
  {
  }

  /** Flattening one more group appends it. */
  lemma FlattenSnoc(groups: seq<seq<string>>, g: seq<string>)
    ensures Flatten(groups + [g]) == Flatten(groups) + g
  {
    assert (groups + [g])[..|groups|] == groups;
  }

  /** The sentences of the extended last group all fit, the new one included. */
  lemma ExtendFits(groups: seq<seq<string>>, s: string, maxLength: int)
    requires groups != [] && !Overflows(groups[|groups| - 1], s, maxLength)
    requires forall i, k :: 0 <= i < |groups| && 0 < k < |groups[i]| ==> Fits(groups[i], k, maxLength)
    ensures var result := groups[..|groups| - 1] + [groups[|groups| - 1] + [s]];
            forall i, k :: 0 <= i < |result| && 0 < k < |result[i]| ==> Fits(result[i], k, maxLength)
  {
    var m := |groups| - 1;
    var last := groups[m] + [s];
    var result := groups[..m] + [last];
    assert last[..|last| - 1] == groups[m];
    forall i, k | 0 <= i < |result| && 0 < k < |result[i]|
      ensures Fits(result[i], k, maxLength)
    {
      if i < m {
        assert result[i] == groups[i];
      } else if k < |groups[m]| {
        assert last[..k] == groups[m][..k];
        assert Fits(groups[m], k, maxLength);
      }
    }
  }

  /** Starting a new group with a sentence that does not fit keeps a grouping valid. */
  lemma StartNewGroup(groups: seq<seq<string>>, init: seq<string>, s: string, maxLength: int)
    requires ValidGrouping(groups, init, maxLength)
    requires groups == [] || Overflows(groups[|groups| - 1], s, maxLength)
    ensures ValidGrouping(groups + [[s]], init + [s], maxLength)
  {
    var result := groups + [[s]];
    assert result[..|groups|] == groups;
    forall i, k | 0 <= i < |result| && 0 < k < |result[i]|
      ensures Fits(result[i], k, maxLength)
    {
      assert result[i] == groups[i];
    }
    forall i | 0 < i < |result|
      ensures Overflows(result[i - 1], result[i][0], maxLength)
    {
      if i < |groups| {
        assert result[i] == groups[i] && result[i - 1] == groups[i - 1];
      }
    }
  }

  /** The grouping the chunker builds meets the specification. */
  lemma {:induction false} GroupingValid(ss: seq<string>, maxLength: int)
    ensures ValidGrouping(Grouping(ss, maxLength), ss, maxLength)
  {
    if ss != [] {
      var init := ss[..|ss| - 1];
      var s := ss[|ss| - 1];
      GroupingValid(init, maxLength);
      var groups := Grouping(init, maxLength);
      assert ss == init + [s];
      if groups != [] && !Overflows(groups[|groups| - 1], s, maxLength) {
        ExtendLastGroup(groups, init, s, maxLength);
      } else {
        StartNewGroup(groups, init, s, maxLength);
      }
    }
  }

  /** A partition into non-empty groups of an empty sequence has no groups. */
  lemma FlattenNonEmpty(groups: seq<seq<string>>)
    requires groups != [] && groups[|groups| - 1] != []
    ensures Flatten(groups) != []
  {
  }

  /** The grouping without the last sentence: the last group loses its last member,
      or disappears when that was its only member. */
  function DropLast(groups: seq<seq<string>>): seq<seq<string>>
    requires groups != [] && groups[|groups| - 1] != []
  {
    var m := |groups| - 1;
    var last := groups[m];
    if |last| == 1 then groups[..m] else groups[..m] + [last[..|last| - 1]]
  }

  /** Removing the last sentence from a partition into non-empty groups leaves a
      partition of the sentences before it. */
  lemma DropLastFlatten(groups: seq<seq<string>>)
    requires groups != [] && forall i :: 0 <= i < |groups| ==> groups[i] != []
    ensures var ss := Flatten(groups);
            && ss != [] && ss[|ss| - 1] == groups[|groups| - 1][|groups[|groups| - 1]| - 1]
            && Flatten(DropLast(groups)) == ss[..|ss| - 1]
            && forall i :: 0 <= i < |DropLast(groups)| ==> DropLast(groups)[i] != []
  {
    var m := |groups| - 1;
    var last := groups[m];
    var shorter := DropLast(groups);
    assert Flatten(groups) == Flatten(groups[..m]) + last;
    var s := last[|last| - 1];
    assert last == last[..|last| - 1] + [s];
    if |last| > 1 {
      assert shorter[..m] == groups[..m];
      assert Flatten(shorter) == Flatten(groups[..m]) + last[..|last| - 1];
    }
    assert Flatten(shorter) + [s] == Flatten(groups);
    forall i | 0 <= i < |shorter| ensures shorter[i] != [] {
      if i < m { assert shorter[i] == groups[i]; }
    }
  }

  /** Removing the last sentence keeps the packing rule of a valid grouping. */
  lemma DropLastRules(groups: seq<seq<string>>, maxLength: int)
    requires groups != [] && forall i :: 0 <= i < |groups| ==> groups[i] != []
    requires forall i, k :: 0 <= i < |groups| && 0 < k < |groups[i]| ==> Fits(groups[i], k, maxLength)
    requires forall i :: 0 < i < |groups| ==> Overflows(groups[i - 1], groups[i][0], maxLength)
    ensures var shorter := DropLast(groups);
            && (forall i, k :: 0 <= i < |shorter| && 0 < k < |shorter[i]| ==> Fits(shorter[i], k, maxLength))
            && (forall i :: 0 < i < |shorter| ==> Overflows(shorter[i - 1], shorter[i][0], maxLength))
  {
    var m := |groups| - 1;
    var last := groups[m];
    var shorter := DropLast(groups);
    forall i, k | 0 <= i < |shorter| && 0 < k < |shorter[i]|
      ensures Fits(shorter[i], k, maxLength)
    {
      if i < m {
        assert shorter[i] == groups[i];
      } else {
        assert shorter[i] == last[..|last| - 1];
        assert last[..|last| - 1][..k] == last[..k];
        assert Fits(last, k, maxLength);
      }
    }
    forall i | 0 < i < |shorter|
      ensures Overflows(shorter[i - 1], shorter[i][0], maxLength)
    {
      assert shorter[i - 1] == groups[i - 1];
      assert shorter[i][0] == groups[i][0];
    }
  }

  /** Removing the last sentence from a valid grouping leaves a valid grouping of the
      sentences before it. */
  lemma DropLastValid(groups: seq<seq<string>>, ss: seq<string>, maxLength: int)
    requires ValidGrouping(groups, ss, maxLength) && groups != []
    ensures ss != [] && ss[|ss| - 1] == groups[|groups| - 1][|groups[|groups| - 1]| - 1]
    ensures ValidGrouping(DropLast(groups), ss[..|ss| - 1], maxLength)
  {
    DropLastFlatten(groups);
    DropLastRules(groups, maxLength);
  }

  /** `Grouping` of a non-empty sequence, one step unfolded. */
  lemma GroupingLast(ss: seq<string>, maxLength: int)
    requires ss != []
    ensures var groups := Grouping(ss[..|ss| - 1], maxLength);
            var s := ss[|ss| - 1];
            Grouping(ss, maxLength) ==
              if groups != [] && !Overflows(groups[|groups| - 1], s, maxLength) then
                groups[..|groups| - 1] + [groups[|groups| - 1] + [s]]
              else groups + [[s]]
  {
  }

  /** Uniqueness, when the last sentence is alone in its group. */
  lemma UniqueWhenLastAlone(groups: seq<seq<string>>, ss: seq<string>, maxLength: int)
    requires ValidGrouping(groups, ss, maxLength) && groups != [] && |groups[|groups| - 1]| == 1
    requires DropLast(groups) == Grouping(ss[..|ss| - 1], maxLength)
    ensures groups == Grouping(ss, maxLength)
  {
    DropLastFlatten(groups);
    GroupingLast(ss, maxLength);
    var m := |groups| - 1;
    var s := ss[|ss| - 1];
    var prev := groups[..m];
    assert groups[m] == [s];
    SnocLast(groups);
    if m > 0 {
      assert Overflows(groups[m - 1], groups[m][0], maxLength);
      assert prev[|prev| - 1] == groups[m - 1];
    }
    assert Grouping(ss, maxLength) == prev + [[s]];
  }

  /** A non-empty sequence is its front followed by its last element. */
  lemma SnocLast<T>(xs: seq<T>)
    requires xs != []
    ensures xs == xs[..|xs| - 1] + [xs[|xs| - 1]]
  {
  }

  /** Uniqueness, when the last sentence joined a group that already had members. */
  lemma UniqueWhenLastJoined(groups: seq<seq<string>>, ss: seq<string>, maxLength: int)
    requires groups != [] && |groups[|groups| - 1]| > 1
    requires ss != [] && ss[|ss| - 1] == groups[|groups| - 1][|groups[|groups| - 1]| - 1]
    requires Fits(groups[|groups| - 1], |groups[|groups| - 1]| - 1, maxLength)
    requires DropLast(groups) == Grouping(ss[..|ss| - 1], maxLength)
    ensures groups == Grouping(ss, maxLength)
  {
    GroupingLast(ss, maxLength);
    var m := |groups| - 1;
    var last := groups[m];
    var k := |last| - 1;
    var s := ss[|ss| - 1];
    var shorter := DropLast(groups);
    assert shorter == groups[..m] + [last[..k]];
    assert shorter[m] == last[..k] && shorter[..m] == groups[..m];
    assert !Overflows(last[..k], s, maxLength);
    SnocLast(last);
    SnocLast(groups);
    assert Grouping(ss, maxLength) == groups[..m] + [last];
  }

  /** The specification admits only one grouping, so the chunks are determined by it. */
  lemma {:induction false} GroupingUnique(groups: seq<seq<string>>, ss: seq<string>, maxLength: int)
    requires ValidGrouping(groups, ss, maxLength)
    ensures groups == Grouping(ss, maxLength)
    decreases |ss|
  {
    if groups == [] {
      assert ss == [];
    } else {
      DropLastValid(groups, ss, maxLength);
      GroupingUnique(DropLast(groups), ss[..|ss| - 1], maxLength);
      var last := groups[|groups| - 1];
      if |last| == 1 {
        UniqueWhenLastAlone(groups, ss, maxLength);
      } else {
        assert Fits(last, |last| - 1, maxLength);
        UniqueWhenLastJoined(groups, ss, maxLength);
      }
    }
  }

  /** Every group of a valid grouping has at least one sentence, so there are no more
      groups than sentences. */
  lemma {:induction false} GroupCountBound(groups: seq<seq<string>>)
    requires forall i :: 0 <= i < |groups| ==> groups[i] != []
    ensures |groups| <= |Flatten(groups)|
  {
    if groups != [] {
      GroupCountBound(groups[..|groups| - 1]);
    }
  }

  /** `chunkText` meets the specification: its chunks are the renderings of the one valid
      grouping of the kept sentences. Every kept sentence therefore appears in exactly one
      chunk, trimmed and followed by a period, in the order of the text, and a new chunk
      starts exactly when the untrimmed sentence did not fit after the chunk being built. */
  lemma ChunkTextSpec(text: string, maxLength: int)
    ensures var ss := Sentences(text);
            var groups := Grouping(ss, maxLength);
            var chunks := ChunkText(text, maxLength);
            && ValidGrouping(groups, ss, maxLength)
            && |chunks| == |groups|
            && forall i :: 0 <= i < |chunks| ==> chunks[i] == Join(Periods(groups[i]), " ")
  {
    var ss := Sentences(text);
    var groups := Grouping(ss, maxLength);
    GroupingValid(ss, maxLength);
    FlushMatchesGrouping(ss, maxLength);
    RendersAsJoins(groups);
  }

  /** After the final push, the chunks are the renderings of the groups. */
  lemma FlushMatchesGrouping(ss: seq<string>, maxLength: int)
    ensures var groups := Grouping(ss, maxLength);
            var chunks := Flush(Scan(ss, maxLength));
            && |chunks| == |groups|
            && forall i :: 0 <= i < |chunks| ==> chunks[i] == Render(groups[i])
  {
    ScanMatchesGrouping(ss, maxLength);
    GroupingValid(ss, maxLength);
    FlushMirrors(Scan(ss, maxLength), Grouping(ss, maxLength));
  }

  /** The final push turns a mirrored state into one chunk per group. */
  lemma FlushMirrors(a: Acc, groups: seq<seq<string>>)
    requires Mirrors(a, groups) && (groups == [] || groups[|groups| - 1] != [])
    ensures |Flush(a)| == |groups|
    ensures forall i :: 0 <= i < |groups| ==> Flush(a)[i] == Render(groups[i])
  {
    if groups != [] {
      var m := |groups| - 1;
      PiecesNonEmpty(groups[m]);
      var chunks := a.chunks + [Trim(a.current)];
      assert Flush(a) == chunks;
      assert chunks[m] == Render(groups[m]);
      forall i | 0 <= i < m ensures chunks[i] == Render(groups[i]) {
        assert chunks[i] == a.chunks[i];
      }
    }
  }

  /** Every group renders as its sentences, trimmed, each followed by a period, joined by spaces. */
  lemma RendersAsJoins(groups: seq<seq<string>>)
    requires forall i :: 0 <= i < |groups| ==> groups[i] != []
    ensures forall i :: 0 <= i < |groups| ==> Render(groups[i]) == Join(Periods(groups[i]), " ")
  {
    forall i | 0 <= i < |groups| ensures Render(groups[i]) == Join(Periods(groups[i]), " ") {
      RenderAsJoin(groups[i]);
    }
  }

  /** A finished chunk: non-empty, already trimmed, ending with a period. */
  predicate Finished(c: string) {
    c != [] && c[|c| - 1] == '.' && Trim(c) == c
  }

  /** The chunk of one group is finished. */
  lemma GroupChunkShape(g: seq<string>)
    requires g != []
    ensures Finished(Render(g))
  {
    PiecesShape(g);
    PiecesAsJoin(g);
    RenderAsJoin(g);
    var p := Pieces(g);
    var c := Render(g);
    assert c == p[..|p| - 1];
    assert c[0] == p[0] && c[|c| - 1] == p[|p| - 2];
    assert p[|p| - 2] == '.';
    TrimOfTrimmed(c);
  }

  /** Shape of every chunk: non-empty, already trimmed, ending with a period; and there
      are no more chunks than kept sentences (demo.js:188-195). In particular a first
      sentence that does not fit does not produce an empty leading chunk. */
  lemma ChunkShape(text: string, maxLength: int)
    ensures |ChunkText(text, maxLength)| <= |Sentences(text)|
    ensures forall i :: 0 <= i < |ChunkText(text, maxLength)| ==> Finished(ChunkText(text, maxLength)[i])
  {
    var ss := Sentences(text);
    var groups := Grouping(ss, maxLength);
    var chunks := ChunkText(text, maxLength);
    GroupingValid(ss, maxLength);
    FlushMatchesGrouping(ss, maxLength);
    GroupCountBound(groups);
    forall i | 0 <= i < |chunks| ensures Finished(chunks[i]) {
      GroupChunkShape(groups[i]);
    }
  }

  /** Neither a letter nor anything else but punctuation and white space. */
  predicate NoWords(s: string) {
    forall k :: 0 <= k < |s| ==> IsPunct(s[k]) || IsSpace(s[k])
  }

  /** Every fragment is blank. */
  predicate AllBlank(fs: seq<string>) {
    forall k :: 0 <= k < |fs| ==> !NonBlank(fs[k])
  }

  /** The text yields no chunk exactly when it holds nothing but punctuation and white
      space; in particular the empty text gives none (demo.js:182, demo.js:195-196). */
  lemma ChunkTextEmptyIff(text: string, maxLength: int)
    ensures ChunkText(text, maxLength) == [] <==> NoWords(text)
  {
    var ss := Sentences(text);
    var groups := Grouping(ss, maxLength);
    GroupingValid(ss, maxLength);
    FlushMatchesGrouping(ss, maxLength);
    GroupCountBound(groups);
    if groups != [] {
      FlattenNonEmpty(groups);
    }
    KeepEmptyIffAllBlank(Split(text));
    SplitAllBlankIff(text);
  }

  /** The filter drops everything exactly when every fragment is blank. */
  lemma {:induction false} KeepEmptyIffAllBlank(fs: seq<string>)
    ensures Keep(fs) == [] <==> AllBlank(fs)
  {
    if fs != [] {
      KeepEmptyIffAllBlank(fs[1..]);
      AllBlankCons(fs[0], fs[1..]);
      assert fs == [fs[0]] + fs[1..];
    }
  }

  /** A list of fragments is blank exactly when its head and its tail are. */
  lemma AllBlankCons(f: string, fs: seq<string>)
    ensures AllBlank([f] + fs) <==> !NonBlank(f) && AllBlank(fs)
  {
    var all := [f] + fs;
    if AllBlank(all) {
      assert all[0] == f;
      forall k | 0 <= k < |fs| ensures !NonBlank(fs[k]) {
        assert fs[k] == all[k + 1];
      }
    }
    if !NonBlank(f) && AllBlank(fs) {
      forall k | 0 <= k < |all| ensures !NonBlank(all[k]) {
        if k > 0 { assert all[k] == fs[k - 1]; }
      }
    }
  }

  /** Punctuation and white space only, split at any point. */
  lemma NoWordsConcat(a: string, b: string)
    ensures NoWords(a + b) <==> NoWords(a) && NoWords(b)
  {
    assert forall k :: 0 <= k < |a| ==> (a + b)[k] == a[k];
    assert forall k :: 0 <= k < |b| ==> (a + b)[|a| + k] == b[k];
  }

  /** A fragment between separators is blank exactly when it has no character but white space. */
  lemma BlankFragment(f: string)
    requires PunctFree(f)
    ensures !NonBlank(f) <==> NoWords(f)
  {
    TrimEmptyIffAllSpace(f);
  }

  /** Every fragment of the split is blank exactly when the text has no character other
      than punctuation and white space. */
  lemma {:induction false} SplitAllBlankIff(s: string)
    ensures AllBlank(Split(s)) <==> NoWords(s)
    decreases |s|
  {
    var i := FirstPunct(s);
    var head := s[..i];
    BlankFragment(head);
    if i == |s| {
      assert head == s;
      AllBlankCons(s, []);
    } else {
      var j := RunEnd(s, i);
      var sep := s[i..j];
      var rest := s[j..];
      SplitStep(s);
      SplitAllBlankIff(rest);
      AllBlankCons(head, Split(rest));
      AppendAssoc(head, sep, rest);
      NoWordsConcat(head, sep + rest);
      NoWordsConcat(sep, rest);
      assert NoWords(sep);
    }
  }

  /** Inside one group of kept sentences: every sentence after the first is within the
      bound, and a sentence whose trimmed form plus three characters exceeds the bound is
      the only member of its group. Any other member sits next to a piece of at least
      three characters (a non-blank trimmed sentence, a period and a space) and to a
      sentence of at least one. */
  lemma GroupOversized(g: seq<string>, maxLength: int)
    requires g != [] && forall k :: 0 < k < |g| ==> Fits(g, k, maxLength)
    requires forall k :: 0 <= k < |g| ==> NonBlank(g[k])
    ensures forall k :: 0 < k < |g| ==> |g[k]| <= maxLength
    ensures forall k :: 0 <= k < |g| && |Trim(g[k])| + 3 > maxLength ==> |g| == 1
  {
    forall k | 0 < k < |g| ensures |g[k]| <= maxLength {
      assert Fits(g, k, maxLength);
    }
    if |g| > 1 {
      forall k | 0 <= k < |g| ensures |Trim(g[k])| + 3 <= maxLength {
        TrimShape(g[k]);
        if k == 0 {
          TrimShape(g[1]);
          assert Fits(g, 1, maxLength);
          assert g[..1] == [g[0]];
          assert Pieces([g[0]]) == Pieces([]) + Piece(g[0]);
        } else {
          TrimShape(g[k - 1]);
          assert Fits(g, k, maxLength);
          assert g[..k][..k - 1] == g[..k - 1];
          assert Pieces(g[..k]) == Pieces(g[..k - 1]) + Piece(g[k - 1]);
        }
      }
    }
  }

  /** Every member of every group is non-blank when every sentence of the flattening is. */
  lemma {:induction false} GroupsNonBlank(groups: seq<seq<string>>)
    requires forall k :: 0 <= k < |Flatten(groups)| ==> NonBlank(Flatten(groups)[k])
    ensures forall i, k :: 0 <= i < |groups| && 0 <= k < |groups[i]| ==> NonBlank(groups[i][k])
  {
    if groups != [] {
      var init := groups[..|groups| - 1];
      var last := groups[|groups| - 1];
      var f := Flatten(groups);
      var fi := Flatten(init);
      assert f == fi + last;
      forall k | 0 <= k < |fi| ensures NonBlank(fi[k]) {
        assert f[k] == fi[k];
      }
      GroupsNonBlank(init);
      forall i, k | 0 <= i < |groups| && 0 <= k < |groups[i]| ensures NonBlank(groups[i][k]) {
        if i < |init| {
          assert groups[i] == init[i];
        } else {
          assert f[|fi| + k] == last[k];
        }
      }
    }
  }

  /** Packing tests the untrimmed sentence: a sentence longer than the bound always
      starts a new chunk, and a sentence whose trimmed form plus three characters is
      longer than the bound is alone in its chunk, which is then exactly that sentence
      followed by a period (demo.js:187-195). */
  lemma OversizedSentences(text: string, maxLength: int)
    ensures var groups := Grouping(Sentences(text), maxLength);
            var chunks := ChunkText(text, maxLength);
            && |chunks| == |groups|
            && (forall i, k :: 0 <= i < |groups| && 0 <= k < |groups[i]| && |groups[i][k]| > maxLength ==> k == 0)
            && (forall i, k :: 0 <= i < |groups| && 0 <= k < |groups[i]| && |Trim(groups[i][k])| + 3 > maxLength ==>
                  |groups[i]| == 1 && chunks[i] == Trim(groups[i][0]) + ".")
  {
    var ss := Sentences(text);
    var groups := Grouping(ss, maxLength);
    GroupingValid(ss, maxLength);
    FlushMatchesGrouping(ss, maxLength);
    GroupsNonBlank(groups);
    forall i | 0 <= i < |groups|
      ensures forall k :: 0 < k < |groups[i]| ==> |groups[i][k]| <= maxLength
      ensures forall k :: 0 <= k < |groups[i]| && |Trim(groups[i][k])| + 3 > maxLength ==> |groups[i]| == 1
      ensures |groups[i]| == 1 ==> Render(groups[i]) == Trim(groups[i][0]) + "."
    {
      GroupOversized(groups[i], maxLength);
      RenderAsJoin(groups[i]);
    }
  }

  /** The threshold of `OversizedSentences` cannot be lowered: a non-blank sentence whose
      trimmed form plus three characters is within the bound shares its chunk with a
      following one-letter sentence. */
  lemma ShortSentencePairs(s: string, maxLength: int)
    requires NonBlank(s) && |Trim(s)| + 3 <= maxLength
    ensures Grouping([s, "y"], maxLength) == [[s, "y"]]
  {
    assert [s, "y"][..1] == [s];
    assert [s][..0] == [];
    assert Grouping([s], maxLength) == [[s]];
    assert Pieces([s]) == Pieces([]) + Piece(s);
    assert !Overflows([s], "y", maxLength);
    assert [s] + ["y"] == [s, "y"];
    assert [[s]][..0] == [];
    assert [[s]][..0] + [[s, "y"]] == [[s, "y"]];
  }

  /** The bound on the chunk of one group: a chunk of one sentence that fitted, or of
      several sentences, is at most one character over `maxLength`. */
  lemma GroupChunkLength(g: seq<string>, maxLength: int)
    requires g != [] && (|g| > 1 ==> Fits(g, |g| - 1, maxLength))
    ensures |Render(g)| <= maxLength + 1 || (|g| == 1 && |g[0]| > maxLength)
  {
    var n := |g| - 1;
    RenderAsJoin(g);
    TrimShape(g[n]);
    assert Pieces(g) == Pieces(g[..n]) + Piece(g[n]);
    if n == 0 {
      assert g[..0] == [];
    }
  }

  /** A chunk longer than `maxLength + 1` is a single sentence that did not fit on its
      own; so a chunk of two or more sentences is at most one character over the bound,
      the period that replaces the final space (demo.js:187-195). */
  lemma ChunkLengthBound(text: string, maxLength: int)
    ensures var groups := Grouping(Sentences(text), maxLength);
            var chunks := ChunkText(text, maxLength);
            && |chunks| == |groups|
            && forall i :: 0 <= i < |chunks| && |chunks[i]| > maxLength + 1 ==>
                 |groups[i]| == 1 && |groups[i][0]| > maxLength
  {
    var ss := Sentences(text);
    var groups := Grouping(ss, maxLength);
    GroupingValid(ss, maxLength);
    FlushMatchesGrouping(ss, maxLength);
    forall i | 0 <= i < |groups|
      ensures |Render(groups[i])| <= maxLength + 1 || (|groups[i]| == 1 && |groups[i][0]| > maxLength)
    {
      var g := groups[i];
      if |g| > 1 {
        assert Fits(g, |g| - 1, maxLength);
      }
      GroupChunkLength(g, maxLength);
    }
  }

  /** The `forEach` of demo.js:186-197 as a loop; it computes `chunkText` exactly. */
  method ChunkTextLoop(text: string, maxLength: int) returns (chunks: seq<string>)
    ensures chunks == ChunkText(text, maxLength)
    ensures forall i :: 0 <= i < |chunks| ==> chunks[i] != [] && chunks[i][|chunks[i]| - 1] == '.'
  {
    var sentences := Sentences(text);
    chunks := [];
    var current := "";
    var i := 0;
    while i < |sentences|
      invariant 0 <= i <= |sentences|
      invariant Acc(chunks, current) == Scan(sentences[..i], maxLength)
    {
      var sentence := sentences[i];
      assert sentences[..i + 1][..i] == sentences[..i];
      if |current + sentence| <= maxLength {
        current := current + Piece(sentence);
      } else {
        if current != [] {
          chunks := chunks + [Trim(current)];
        }
        current := Piece(sentence);
      }
      i := i + 1;
    }
    assert sentences[..i] == sentences;
    if current != [] {
      chunks := chunks + [Trim(current)];
    }
    ChunkShape(text, maxLength);
  }
}
