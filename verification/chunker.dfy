/** The hierarchical chunker of project/document_chunker.py: four passes that
    turn the sections produced by a Markdown header splitter into parent
    sections of bounded size and child fragments linked back to them.

    The passes are modelled on immutable sequences. The source mutates the
    documents in place; the model threads the same values through the loop
    state instead. */
module DocumentChunker {
  import opened Strings
  import opened Documents

  // project/config.py:62-67
  const ChildChunkSize: nat := 500
  const ChildChunkOverlap: nat := 100
  const MinParentSize: nat := 2000
  const MaxParentSize: nat := 10000

  /** Separator placed between two texts that are glued together. */
  const ParagraphBreak: string := "\n\n"
  /** Separator placed between two heading values of the same metadata key. */
  const TrailSeparator: string := " -> "

  // ===========================================================================
  // Pass 1: merge sections that are too short
  // ===========================================================================

  /** Per-key metadata merge: a key known to both sides becomes the trail
      "old -> new"; a key only the incoming section has is copied. */
  function MergeMetadata(current: map<string, string>, incoming: map<string, string>): map<string, string>
  {
    map k | k in current.Keys + incoming.Keys ::
      if k in incoming then
        (if k in current then current[k] + TrailSeparator + incoming[k] else incoming[k])
      else current[k]
  }

  /** The source's loop over the incoming items, updating the buffer's
      metadata one key at a time; it computes the per-key merge above. */
  method MergeMetadataLoop(current: map<string, string>, incoming: map<string, string>)
    returns (m: map<string, string>)
    ensures m.Keys == current.Keys + incoming.Keys
    ensures forall k :: k in current && k in incoming ==> m[k] == current[k] + TrailSeparator + incoming[k]
    ensures forall k :: k !in current && k in incoming ==> m[k] == incoming[k]
    ensures forall k :: k in current && k !in incoming ==> m[k] == current[k]
    ensures m == MergeMetadata(current, incoming)
  {
    m := current;
    var todo := incoming.Keys;
    while todo != {}
      invariant todo <= incoming.Keys
      invariant m.Keys == current.Keys + (incoming.Keys - todo)
      invariant forall k :: k in m && k in incoming && k !in todo ==>
        m[k] == (if k in current then current[k] + TrailSeparator + incoming[k] else incoming[k])
      invariant forall k :: k in m && (k !in incoming || k in todo) ==> m[k] == current[k]
      decreases todo
    {
      var k :| k in todo;
      if k in m {
        m := m[k := m[k] + TrailSeparator + incoming[k]];
      } else {
        m := m[k := incoming[k]];
      }
      todo := todo - {k};
    }
  }

  /** Folding one more section into the running buffer. */
  function Absorb(current: Document, incoming: Document): Document {
    Document(current.pageContent + ParagraphBreak + incoming.pageContent,
             MergeMetadata(current.metadata, incoming.metadata))
  }

  /** Gluing a text after a document's content; the metadata is left alone. */
  function AppendText(d: Document, text: string): Document {
    d.(pageContent := d.pageContent + ParagraphBreak + text)
  }

  /** Gluing a text before a document's content; the metadata is left alone. */
  function PrependText(text: string, d: Document): Document {
    d.(pageContent := text + ParagraphBreak + d.pageContent)
  }

  predicate AllAtLeastMin(ds: seq<Document>) {
    forall i :: 0 <= i < |ds| ==> |ds[i].pageContent| >= MinParentSize
  }

  /** The texts the merge loop is still holding: the emitted chunks, then the
      buffer if there is one. */
  function Held(merged: seq<Document>, current: Option<Document>): seq<string> {
    Texts(merged) + (if current.Some? then [current.value.pageContent] else [])
  }

  /** The merge loop over the sections not yet visited: returns the emitted
      chunks and the buffer left over at the end. A buffer is emitted as soon
      as its content reaches MinParentSize. */
  function MergeLoop(rest: seq<Document>, merged: seq<Document>, current: Option<Document>)
    : (r: (seq<Document>, Option<Document>))
    requires AllAtLeastMin(merged)
    requires current.Some? ==> |current.value.pageContent| < MinParentSize
    ensures AllAtLeastMin(r.0)
    ensures r.1.Some? ==> |r.1.value.pageContent| < MinParentSize
    ensures |merged| <= |r.0|
    ensures (|rest| > 0 || |merged| > 0 || current.Some?) ==> |r.0| > 0 || r.1.Some?
    decreases |rest|
  {
    if |rest| == 0 then (merged, current)
    else
      var cur := if current.None? then rest[0] else Absorb(current.value, rest[0]);
      if |cur.pageContent| >= MinParentSize then MergeLoop(rest[1..], merged + [cur], None)
      else MergeLoop(rest[1..], merged, Some(cur))
  }

  /** `__merge_small_parents`. A buffer still short at the end is glued onto
      the last emitted chunk (content only), or becomes the only chunk. */
  function MergeSmallParents(chunks: seq<Document>): seq<Document> {
    if |chunks| == 0 then []
    else
      var (merged, current) := MergeLoop(chunks, [], None);
      match current
      case None => merged
      case Some(c) =>
        if |merged| > 0 then merged[..|merged| - 1] + [AppendText(merged[|merged| - 1], c.pageContent)]
        else [c]
  }

  /** Emitted chunks are never taken back: whatever the loop visits later,
      the chunks emitted so far stay, unchanged, at the head of its result. */
  lemma {:induction false} MergeLoopKeepsEmitted(rest: seq<Document>, merged: seq<Document>, current: Option<Document>)
    requires AllAtLeastMin(merged)
    requires current.Some? ==> |current.value.pageContent| < MinParentSize
    ensures MergeLoop(rest, merged, current).0[..|merged|] == merged
    decreases |rest|
  {
    if |rest| > 0 {
      var cur := if current.None? then rest[0] else Absorb(current.value, rest[0]);
      if |cur.pageContent| >= MinParentSize {
        MergeLoopKeepsEmitted(rest[1..], merged + [cur], None);
        var r := MergeLoop(rest[1..], merged + [cur], None).0;
        assert r[..|merged|] == r[..|merged| + 1][..|merged|];
      } else {
        MergeLoopKeepsEmitted(rest[1..], merged, Some(cur));
      }
    }
  }

  /** Merging keeps the section count at zero exactly when it was zero. */
  lemma MergeEmptiness(chunks: seq<Document>)
    ensures |MergeSmallParents(chunks)| == 0 <==> |chunks| == 0
  {
  }

  /** Every chunk of the merge result reaches MinParentSize, unless the result
      is one single chunk. */
  lemma MergeSizes(chunks: seq<Document>)
    ensures var r := MergeSmallParents(chunks);
      |r| <= 1 || AllAtLeastMin(r)
    ensures var r := MergeSmallParents(chunks);
      |r| > 0 && |r[0].pageContent| < MinParentSize ==> |r| == 1
  {
    if |chunks| > 0 {
      var (merged, current) := MergeLoop(chunks, [], None);
      var r := MergeSmallParents(chunks);
      if current.Some? && |merged| > 0 {
        var last := merged[|merged| - 1];
        assert |AppendText(last, current.value.pageContent).pageContent| >= |last.pageContent|;
        assert forall i :: 0 <= i < |r| - 1 ==> r[i] == merged[i];
      }
    }
  }

  /** Gluing two neighbouring texts with the separator leaves the join unchanged. */
  lemma JoinFuse(a: seq<string>, x: string, y: string, b: seq<string>, sep: string)
    ensures Join(a + [x + sep + y] + b, sep) == Join(a + [x, y] + b, sep)
  {
    var fused := [x + sep + y] + b;
    var split := [x, y] + b;
    if |b| == 0 {
      assert Join(split, sep) == x + sep + Join([y], sep);
    } else {
      assert fused[1..] == b;
      assert split[1..] == [y] + b;
      assert ([y] + b)[1..] == b;
    }
    assert Join(fused, sep) == Join(split, sep);
    if |a| > 0 {
      JoinAppend(a, fused, sep);
      JoinAppend(a, split, sep);
    }
    assert a + [x + sep + y] + b == a + fused;
    assert a + [x, y] + b == a + split;
  }

  /** One iteration of the merge loop leaves the join of what it holds plus
      what it has not visited unchanged. */
  lemma MergeStepJoin(merged: seq<Document>, current: Option<Document>, x: Document, tail: seq<string>)
    ensures var cur := if current.None? then x else Absorb(current.value, x);
      && Held(merged + [cur], None) == Held(merged, Some(cur))
      && Join(Held(merged, Some(cur)) + tail, ParagraphBreak)
         == Join(Held(merged, current) + [x.pageContent] + tail, ParagraphBreak)
  {
    var cur := if current.None? then x else Absorb(current.value, x);
    TextsAppend(merged, [cur]);
    assert Texts([cur]) == [cur.pageContent];
    assert Held(merged + [cur], None) == Texts(merged) + [cur.pageContent] == Held(merged, Some(cur));
    if current.None? {
      assert Held(merged, Some(cur)) + tail == Held(merged, current) + [x.pageContent] + tail;
    } else {
      var c := current.value;
      assert Held(merged, Some(cur)) + tail == Texts(merged) + [c.pageContent + ParagraphBreak + x.pageContent] + tail;
      assert Held(merged, current) + [x.pageContent] + tail == Texts(merged) + [c.pageContent, x.pageContent] + tail;
      JoinFuse(Texts(merged), c.pageContent, x.pageContent, tail, ParagraphBreak);
    }
  }

  /** The join of what the loop holds plus what it has not visited yet is the
      same in every iteration. */
  lemma {:induction false} MergeLoopLossless(rest: seq<Document>, merged: seq<Document>, current: Option<Document>)
    requires AllAtLeastMin(merged)
    requires current.Some? ==> |current.value.pageContent| < MinParentSize
    ensures var r := MergeLoop(rest, merged, current);
      Join(Held(r.0, r.1), ParagraphBreak) == Join(Held(merged, current) + Texts(rest), ParagraphBreak)
    decreases |rest|
  {
    if |rest| == 0 {
      assert Held(merged, current) + Texts(rest) == Held(merged, current);
    } else {
      var x := rest[0];
      var cur := if current.None? then x else Absorb(current.value, x);
      assert Texts(rest) == [x.pageContent] + Texts(rest[1..]);
      assert Held(merged, current) + Texts(rest) == Held(merged, current) + [x.pageContent] + Texts(rest[1..]);
      MergeStepJoin(merged, current, x, Texts(rest[1..]));
      if |cur.pageContent| >= MinParentSize {
        MergeLoopLossless(rest[1..], merged + [cur], None);
      } else {
        MergeLoopLossless(rest[1..], merged, Some(cur));
      }
    }
  }

  /** Merging loses no text and keeps the order: the output contents joined
      with a blank line equal the input contents joined the same way. */
  lemma MergeLossless(chunks: seq<Document>)
    ensures Join(Texts(MergeSmallParents(chunks)), ParagraphBreak) == Join(Texts(chunks), ParagraphBreak)
  {
    if |chunks| > 0 {
      MergeLoopLossless(chunks, [], None);
      var (merged, current) := MergeLoop(chunks, [], None);
      assert Held([], None) + Texts(chunks) == Texts(chunks);
      if current.Some? && |merged| > 0 {
        var n := |merged| - 1;
        var c := current.value.pageContent;
        var r := MergeSmallParents(chunks);
        assert Texts(r) == Texts(merged[..n]) + [merged[n].pageContent + ParagraphBreak + c] + [];
        assert Held(merged, current) == Texts(merged[..n]) + [merged[n].pageContent, c] + [];
        JoinFuse(Texts(merged[..n]), merged[n].pageContent, c, [], ParagraphBreak);
      } else if current.Some? {
        assert Texts([current.value]) == Held(merged, current);
      } else {
        assert Texts(merged) == Held(merged, current);
      }
    }
  }

  /** A short first section is folded into the next one: the contents are
      glued and the metadata is merged key by key. */
  lemma MergeTwoShortSections(a: Document, b: Document)
    requires |a.pageContent| < MinParentSize
    ensures MergeSmallParents([a, b]) == [Absorb(a, b)]
  {
    assert [a, b][1..] == [b];
    assert MergeLoop([a, b], [], None) == MergeLoop([b], [], Some(a));
    var cur := Absorb(a, b);
    assert [b][1..] == [] && [] + [cur] == [cur];
    if |cur.pageContent| >= MinParentSize {
      assert MergeLoop([b], [], Some(a)) == MergeLoop([], [cur], None) == ([cur], None);
    } else {
      assert MergeLoop([b], [], Some(a)) == MergeLoop([], [], Some(cur)) == ([], Some(cur));
    }
  }

  /** A short trailing buffer is glued onto the previous chunk's content and
      its metadata is dropped. */
  lemma MergeTrailingKeepsMetadata(a: Document, b: Document)
    requires |a.pageContent| >= MinParentSize
    requires |b.pageContent| < MinParentSize
    ensures MergeSmallParents([a, b]) == [Document(a.pageContent + ParagraphBreak + b.pageContent, a.metadata)]
  {
    assert [a, b][1..] == [b] && [b][1..] == [] && [] + [a] == [a];
    assert MergeLoop([a, b], [], None) == MergeLoop([b], [a], None);
    assert MergeLoop([b], [a], None) == MergeLoop([], [a], Some(b)) == ([a], Some(b));
  }

  // ===========================================================================
  // Pass 2: split sections that are too long
  // ===========================================================================

  /** One chunk of the split pass: kept when within MaxParentSize, otherwise
      replaced by the library splitter's pieces (chunk size MaxParentSize,
      overlap ChildChunkOverlap), each with a copy of its metadata. */
  function SplitOne(d: Document, split: SplitText): seq<Document> {
    if |d.pageContent| <= MaxParentSize then [d]
    else Pieces(split(MaxParentSize, ChildChunkOverlap, d.pageContent), d.metadata)
  }

  /** `__split_large_parents`. */
  function SplitLargeParents(chunks: seq<Document>, split: SplitText): seq<Document>
    decreases |chunks|
  {
    if |chunks| == 0 then [] else SplitOne(chunks[0], split) + SplitLargeParents(chunks[1..], split)
  }

  /** The split pass works chunk by chunk in order: splitting a concatenation
      is concatenating the splits. */
  lemma {:induction false} SplitDistributes(a: seq<Document>, b: seq<Document>, split: SplitText)
    ensures SplitLargeParents(a + b, split) == SplitLargeParents(a, split) + SplitLargeParents(b, split)
    decreases |a|
  {
    if |a| == 0 {
      assert a + b == b;
    } else {
      assert (a + b)[1..] == a[1..] + b;
      SplitDistributes(a[1..], b, split);
    }
  }

  /** A chunk within bound stays where it is: whatever surrounds it, it appears
      unchanged between the splits of its neighbours. */
  lemma SplitKeepsShortInPlace(chunks: seq<Document>, i: nat, split: SplitText)
    requires i < |chunks| && |chunks[i].pageContent| <= MaxParentSize
    ensures SplitLargeParents(chunks, split)
      == SplitLargeParents(chunks[..i], split) + [chunks[i]] + SplitLargeParents(chunks[i + 1..], split)
  {
    assert chunks == chunks[..i] + ([chunks[i]] + chunks[i + 1..]);
    SplitDistributes(chunks[..i], [chunks[i]] + chunks[i + 1..], split);
    assert ([chunks[i]] + chunks[i + 1..])[1..] == chunks[i + 1..];
  }

  /** When nothing exceeds MaxParentSize the split pass is the identity. */
  lemma {:induction false} SplitIdentityWhenBounded(chunks: seq<Document>, split: SplitText)
    requires forall i :: 0 <= i < |chunks| ==> |chunks[i].pageContent| <= MaxParentSize
    ensures SplitLargeParents(chunks, split) == chunks
    decreases |chunks|
  {
    if |chunks| > 0 {
      SplitIdentityWhenBounded(chunks[1..], split);
    }
  }

  /** If the library splitter honours its chunk size, every chunk of the split
      pass is within MaxParentSize. */
  lemma {:induction false} SplitBounded(chunks: seq<Document>, split: SplitText)
    requires forall t: string, k :: 0 <= k < |split(MaxParentSize, ChildChunkOverlap, t)| ==>
      |split(MaxParentSize, ChildChunkOverlap, t)[k]| <= MaxParentSize
    ensures forall i :: 0 <= i < |SplitLargeParents(chunks, split)| ==>
      |SplitLargeParents(chunks, split)[i].pageContent| <= MaxParentSize
    decreases |chunks|
  {
    if |chunks| > 0 {
      SplitBounded(chunks[1..], split);
      var one := SplitOne(chunks[0], split);
      assert forall i :: 0 <= i < |one| ==> |one[i].pageContent| <= MaxParentSize;
    }
  }

  // ===========================================================================
  // Pass 3: clean up short chunks once more
  // ===========================================================================

  /** The clean loop over the chunks not yet visited (`rest[0]` is chunk i of
      the source's loop, already carrying anything prepended to it). A short
      chunk is glued onto the last kept chunk; failing that, prepended to the
      next chunk; failing both, dropped. Metadata is never merged. */
  function CleanLoop(rest: seq<Document>, cleaned: seq<Document>): (r: seq<Document>)
    requires AllAtLeastMin(cleaned)
    ensures AllAtLeastMin(r)
    ensures |cleaned| > 0 ==> |r| > 0
    decreases |rest|
  {
    if |rest| == 0 then cleaned
    else
      var c := rest[0];
      if |c.pageContent| < MinParentSize then
        if |cleaned| > 0 then
          CleanLoop(rest[1..], cleaned[..|cleaned| - 1] + [AppendText(cleaned[|cleaned| - 1], c.pageContent)])
        else if |rest| > 1 then
          CleanLoop([PrependText(c.pageContent, rest[1])] + rest[2..], cleaned)
        else cleaned
      else CleanLoop(rest[1..], cleaned + [c])
  }

  /** `__clean_small_chunks`. */
  function CleanSmallChunks(chunks: seq<Document>): (r: seq<Document>)
    ensures AllAtLeastMin(r)
  {
    CleanLoop(chunks, [])
  }

  lemma JoinAtLeastHead(parts: seq<string>, sep: string)
    requires |parts| > 0
    ensures |Join(parts, sep)| >= |parts[0]|
  {
  }

  /** Gluing a short chunk onto the last kept chunk leaves the join unchanged. */
  lemma CleanAppendStep(cleaned: seq<Document>, c: Document, tail: seq<string>)
    requires |cleaned| > 0
    ensures var n := |cleaned| - 1;
      Join(Texts(cleaned[..n] + [AppendText(cleaned[n], c.pageContent)]) + tail, ParagraphBreak)
      == Join(Texts(cleaned) + [c.pageContent] + tail, ParagraphBreak)
  {
    var n := |cleaned| - 1;
    var glued := AppendText(cleaned[n], c.pageContent);
    TextsAppend(cleaned[..n], [glued]);
    TextsAppend(cleaned[..n], [cleaned[n]]);
    assert cleaned == cleaned[..n] + [cleaned[n]];
    assert Texts([glued]) == [glued.pageContent];
    assert Texts([cleaned[n]]) == [cleaned[n].pageContent];
    assert Texts(cleaned[..n] + [glued]) + tail
      == Texts(cleaned[..n]) + [cleaned[n].pageContent + ParagraphBreak + c.pageContent] + tail;
    assert Texts(cleaned) + [c.pageContent] + tail
      == Texts(cleaned[..n]) + [cleaned[n].pageContent, c.pageContent] + tail;
    JoinFuse(Texts(cleaned[..n]), cleaned[n].pageContent, c.pageContent, tail, ParagraphBreak);
  }

  /** Prepending a short chunk to the next chunk leaves the join unchanged. */
  lemma CleanPrependStep(rest: seq<Document>)
    requires |rest| > 1
    ensures Join(Texts([PrependText(rest[0].pageContent, rest[1])] + rest[2..]), ParagraphBreak)
         == Join(Texts(rest), ParagraphBreak)
  {
    var c, d := rest[0], rest[1];
    var next := [PrependText(c.pageContent, d)] + rest[2..];
    assert Texts(next) == [] + [c.pageContent + ParagraphBreak + d.pageContent] + Texts(rest[2..]);
    assert Texts(rest) == [] + [c.pageContent, d.pageContent] + Texts(rest[2..]);
    JoinFuse([], c.pageContent, d.pageContent, Texts(rest[2..]), ParagraphBreak);
  }

  /** Once a chunk has been kept, the clean loop loses no text. */
  lemma {:induction false} CleanLoopKeepsText(rest: seq<Document>, cleaned: seq<Document>)
    requires AllAtLeastMin(cleaned) && |cleaned| > 0
    ensures Join(Texts(CleanLoop(rest, cleaned)), ParagraphBreak)
         == Join(Texts(cleaned) + Texts(rest), ParagraphBreak)
    decreases |rest|
  {
    if |rest| == 0 {
      assert Texts(cleaned) + Texts(rest) == Texts(cleaned);
    } else {
      var c := rest[0];
      assert Texts(cleaned) + Texts(rest) == Texts(cleaned) + [c.pageContent] + Texts(rest[1..]);
      if |c.pageContent| < MinParentSize {
        var n := |cleaned| - 1;
        var next := cleaned[..n] + [AppendText(cleaned[n], c.pageContent)];
        assert CleanLoop(rest, cleaned) == CleanLoop(rest[1..], next);
        CleanLoopKeepsText(rest[1..], next);
        CleanAppendStep(cleaned, c, Texts(rest[1..]));
      } else {
        assert CleanLoop(rest, cleaned) == CleanLoop(rest[1..], cleaned + [c]);
        CleanLoopKeepsText(rest[1..], cleaned + [c]);
        TextsAppend(cleaned, [c]);
        assert Texts([c]) == [c.pageContent];
      }
    }
  }

  /** While nothing has been kept, the clean loop's output is empty exactly
      when all remaining text joined together is shorter than MinParentSize,
      and otherwise it loses no text. */
  lemma {:induction false} CleanLoopFromNothing(rest: seq<Document>)
    ensures var r := CleanLoop(rest, []);
      && (|r| == 0 <==> |Join(Texts(rest), ParagraphBreak)| < MinParentSize)
      && (|r| > 0 ==> Join(Texts(r), ParagraphBreak) == Join(Texts(rest), ParagraphBreak))
    decreases |rest|
  {
    if |rest| > 0 {
      var c := rest[0];
      if |c.pageContent| < MinParentSize {
        if |rest| > 1 {
          var next := [PrependText(c.pageContent, rest[1])] + rest[2..];
          assert CleanLoop(rest, []) == CleanLoop(next, []);
          CleanLoopFromNothing(next);
          CleanPrependStep(rest);
        } else {
          assert Texts(rest) == [c.pageContent];
        }
      } else {
        assert CleanLoop(rest, []) == CleanLoop(rest[1..], [c]);
        CleanLoopKeepsText(rest[1..], [c]);
        assert Texts([c]) + Texts(rest[1..]) == Texts(rest);
        JoinAtLeastHead(Texts(rest), ParagraphBreak);
      }
    }
  }

  /** The clean pass drops everything exactly when the whole text, joined, is
      shorter than MinParentSize; otherwise it loses no text and keeps order. */
  lemma CleanLossless(chunks: seq<Document>)
    ensures |CleanSmallChunks(chunks)| == 0 <==> |Join(Texts(chunks), ParagraphBreak)| < MinParentSize
    ensures |CleanSmallChunks(chunks)| > 0 ==>
      Join(Texts(CleanSmallChunks(chunks)), ParagraphBreak) == Join(Texts(chunks), ParagraphBreak)
  {
    CleanLoopFromNothing(chunks);
  }

  /** On chunks that all reach MinParentSize the clean pass changes nothing. */
  lemma {:induction false} CleanLoopIdentity(rest: seq<Document>, cleaned: seq<Document>)
    requires AllAtLeastMin(cleaned) && AllAtLeastMin(rest)
    ensures CleanLoop(rest, cleaned) == cleaned + rest
    decreases |rest|
  {
    if |rest| > 0 {
      CleanLoopIdentity(rest[1..], cleaned + [rest[0]]);
      assert cleaned + [rest[0]] + rest[1..] == cleaned + rest;
    }
  }

  /** Cleaning is idempotent. */
  lemma CleanIdempotent(chunks: seq<Document>)
    ensures CleanSmallChunks(CleanSmallChunks(chunks)) == CleanSmallChunks(chunks)
  {
    CleanLoopIdentity(CleanSmallChunks(chunks), []);
  }

  /** As written, a lone short chunk has no kept chunk before it and no chunk
      after it, so it is dropped. */
  lemma CleanDropsLoneShortChunk(d: Document)
    requires |d.pageContent| < MinParentSize
    ensures CleanSmallChunks([d]) == []
  {
  }

  // ===========================================================================
  // Pass 4: parent ids and child fragments
  // ===========================================================================

  /** "{stem}_parent_{i}". */
  function ParentId(stem: string, i: nat): string {
    stem + "_parent_" + NatToString(i)
  }

  /** The length of the longest run of digits at the end of s. */
  function DigitSuffixLength(s: string): nat
    decreases |s|
  {
    if |s| > 0 && IsDigit(s[|s| - 1]) then 1 + DigitSuffixLength(s[..|s| - 1]) else 0
  }

  /** After a string ending in an underscore, a run of digits is exactly the
      longest digit suffix. */
  lemma {:induction false} DigitSuffixAfterUnderscore(p: string, d: string)
    requires |p| > 0 && p[|p| - 1] == '_'
    requires AllDigits(d)
    ensures DigitSuffixLength(p + d) == |d|
    decreases |d|
  {
    if |d| == 0 {
      assert p + d == p;
    } else {
      var x := p + d;
      assert x[..|x| - 1] == p + d[..|d| - 1];
      DigitSuffixAfterUnderscore(p, d[..|d| - 1]);
    }
  }

  /** A digit suffix following an underscore is determined by the string. */
  lemma DigitSuffixUnique(p1: string, d1: string, p2: string, d2: string)
    requires p1 + d1 == p2 + d2
    requires |p1| > 0 && p1[|p1| - 1] == '_' && |p2| > 0 && p2[|p2| - 1] == '_'
    requires AllDigits(d1) && AllDigits(d2)
    ensures p1 == p2 && d1 == d2
  {
    var x := p1 + d1;
    DigitSuffixAfterUnderscore(p1, d1);
    DigitSuffixAfterUnderscore(p2, d2);
    assert p1 == x[..|p1|] == p2;
    assert d1 == x[|p1|..] == d2;
  }

  /** The parent id determines both the document stem and the ordinal. */
  lemma ParentIdInjective(s1: string, i: nat, s2: string, j: nat)
    requires ParentId(s1, i) == ParentId(s2, j)
    ensures s1 == s2 && i == j
  {
    var p1, p2 := s1 + "_parent_", s2 + "_parent_";
    assert ParentId(s1, i) == p1 + NatToString(i);
    assert ParentId(s2, j) == p2 + NatToString(j);
    DigitSuffixUnique(p1, NatToString(i), p2, NatToString(j));
    NatToStringInjective(i, j);
    assert s1 == p1[..|s1|] && s2 == p2[..|s2|];
  }

  /** The file name recorded as the parent's source. */
  function SourceName(stem: string): string {
    stem + ".pdf"
  }

  /** The parent document after its metadata update. */
  function TagParent(d: Document, stem: string, id: string): Document {
    d.(metadata := d.metadata["source" := SourceName(stem)]["parent_id" := id])
  }

  /** The i-th (id, parent) pair. */
  function ParentPair(stem: string, parents: seq<Document>, i: nat): (string, Document)
    requires i < |parents|
  {
    (ParentId(stem, i), TagParent(parents[i], stem, ParentId(stem, i)))
  }

  /** The children of one tagged parent, each tagged with the parent's id. */
  function ChildrenOf(pair: (string, Document), split: SplitText): seq<Document> {
    var texts := split(ChildChunkSize, ChildChunkOverlap, pair.1.pageContent);
    Pieces(texts, pair.1.metadata["parent_id" := pair.0])
  }

  /** All (id, parent) pairs and all children of the parents from index `from` on. */
  function PairsFrom(stem: string, parents: seq<Document>, from: nat): seq<(string, Document)>
    requires from <= |parents|
    decreases |parents| - from
  {
    if from == |parents| then [] else [ParentPair(stem, parents, from)] + PairsFrom(stem, parents, from + 1)
  }

  function ChildrenFrom(stem: string, parents: seq<Document>, split: SplitText, from: nat): seq<Document>
    requires from <= |parents|
    decreases |parents| - from
  {
    if from == |parents| then []
    else ChildrenOf(ParentPair(stem, parents, from), split) + ChildrenFrom(stem, parents, split, from + 1)
  }

  /** The i-th pair carries the id "{stem}_parent_{i}", the parent's content,
      and metadata whose source is "{stem}.pdf" and whose parent_id is that
      id, every other key kept. */
  lemma ParentPairSpec(stem: string, parents: seq<Document>, i: nat)
    requires i < |parents|
    ensures var p := ParentPair(stem, parents, i);
      && p.0 == ParentId(stem, i)
      && p.1.pageContent == parents[i].pageContent
      && p.1.metadata.Keys == parents[i].metadata.Keys + {"source", "parent_id"}
      && p.1.metadata["source"] == SourceName(stem)
      && p.1.metadata["parent_id"] == p.0
      && (forall key :: key in parents[i].metadata && key != "source" && key != "parent_id" ==>
            p.1.metadata[key] == parents[i].metadata[key])
  {
  }

  /** The pair list has one entry per parent, in parent order. */
  lemma {:induction false} PairsFromSpec(stem: string, parents: seq<Document>, from: nat)
    requires from <= |parents|
    ensures |PairsFrom(stem, parents, from)| == |parents| - from
    ensures forall k :: from <= k < |parents| ==>
      PairsFrom(stem, parents, from)[k - from] == ParentPair(stem, parents, k)
    decreases |parents| - from
  {
    if from < |parents| {
      PairsFromSpec(stem, parents, from + 1);
      var all := PairsFrom(stem, parents, from);
      var tail := PairsFrom(stem, parents, from + 1);
      assert all == [ParentPair(stem, parents, from)] + tail;
      forall k | from < k < |parents|
        ensures all[k - from] == ParentPair(stem, parents, k)
      {
        assert all[k - from] == tail[k - (from + 1)];
      }
    }
  }

  /** `__create_child_chunks` as the source writes it: one pass over the
      parents appending to the two output lists. */
  method CreateChildChunks(stem: string, parents: seq<Document>, split: SplitText)
    returns (pairs: seq<(string, Document)>, children: seq<Document>)
    ensures pairs == PairsFrom(stem, parents, 0)
    ensures children == ChildrenFrom(stem, parents, split, 0)
  {
    pairs, children := [], [];
    var i := 0;
    while i < |parents|
      invariant 0 <= i <= |parents|
      invariant pairs + PairsFrom(stem, parents, i) == PairsFrom(stem, parents, 0)
      invariant children + ChildrenFrom(stem, parents, split, i) == ChildrenFrom(stem, parents, split, 0)
      decreases |parents| - i
    {
      var id := ParentId(stem, i);
      var parent := TagParent(parents[i], stem, id);
      pairs := pairs + [(id, parent)];
      children := children + ChildrenOf((id, parent), split);
      i := i + 1;
    }
  }

  /** Every child points back to the parent it was split from: its parent_id
      is the id of exactly one pair, the pair whose content it came from. */
  lemma {:induction false} ChildrenLinked(stem: string, parents: seq<Document>, split: SplitText, from: nat, c: nat)
    requires from <= |parents|
    requires c < |ChildrenFrom(stem, parents, split, from)|
    ensures var child := ChildrenFrom(stem, parents, split, from)[c];
      exists k :: from <= k < |parents|
        && "parent_id" in child.metadata
        && child.metadata["parent_id"] == ParentId(stem, k)
        && child in ChildrenOf(ParentPair(stem, parents, k), split)
    decreases |parents| - from
  {
    var head := ChildrenOf(ParentPair(stem, parents, from), split);
    var all := ChildrenFrom(stem, parents, split, from);
    if c < |head| {
      assert all[c] == head[c];
    } else {
      assert all[c] == ChildrenFrom(stem, parents, split, from + 1)[c - |head|];
      ChildrenLinked(stem, parents, split, from + 1, c - |head|);
    }
  }

  /** Parent ids within one document are pairwise distinct, so a child's
      parent_id names exactly one parent. */
  lemma ParentIdsDistinct(stem: string, parents: seq<Document>)
    ensures var pairs := PairsFrom(stem, parents, 0);
      forall a, b :: 0 <= a < b < |pairs| ==> pairs[a].0 != pairs[b].0
  {
    PairsFromSpec(stem, parents, 0);
    var pairs := PairsFrom(stem, parents, 0);
    forall a, b | 0 <= a < b < |pairs|
      ensures pairs[a].0 != pairs[b].0
    {
      assert pairs[a] == ParentPair(stem, parents, a) && pairs[b] == ParentPair(stem, parents, b);
      if pairs[a].0 == pairs[b].0 {
        ParentIdInjective(stem, a, stem, b);
      }
    }
  }

  // ===========================================================================
  // The whole pipeline for one document and for a directory
  // ===========================================================================

  /** The parent sections of one document after the three normalising passes,
      in pass order: merge, split, clean. */
  function NormalizedParents(sections: seq<Document>, split: SplitText): seq<Document> {
    CleanSmallChunks(SplitLargeParents(MergeSmallParents(sections), split))
  }

  /** `create_chunks_single`: the header splitter's sections of the document's
      text go through the passes; returns the (id, parent) pairs and the
      children. */
  function ChunkDocument(stem: string, text: string, headerSplit: string -> seq<Document>, split: SplitText)
    : (seq<(string, Document)>, seq<Document>)
  {
    var parents := NormalizedParents(headerSplit(text), split);
    (PairsFrom(stem, parents, 0), ChildrenFrom(stem, parents, split, 0))
  }

  /** Every parent the pipeline produces reaches MinParentSize. */
  lemma ChunkDocumentParentsAtLeastMin(stem: string, text: string, headerSplit: string -> seq<Document>, split: SplitText)
    ensures var pairs := ChunkDocument(stem, text, headerSplit, split).0;
      forall i :: 0 <= i < |pairs| ==> |pairs[i].1.pageContent| >= MinParentSize
  {
    var parents := NormalizedParents(headerSplit(text), split);
    var pairs := PairsFrom(stem, parents, 0);
    PairsFromSpec(stem, parents, 0);
    forall i | 0 <= i < |pairs|
      ensures |pairs[i].1.pageContent| >= MinParentSize
    {
      assert pairs[i] == ParentPair(stem, parents, i);
    }
  }

  /** As written, a document whose header split yields one short section ends
      up with no parent and no child at all. */
  lemma SingleShortSectionYieldsNothing(stem: string, text: string, headerSplit: string -> seq<Document>, split: SplitText)
    requires |headerSplit(text)| == 1 && |headerSplit(text)[0].pageContent| < MinParentSize
    ensures ChunkDocument(stem, text, headerSplit, split) == ([], [])
  {
    var s := headerSplit(text)[0];
    assert [s][1..] == [];
    assert MergeLoop([s], [], None) == MergeLoop([], [], Some(s));
    assert MergeSmallParents([s]) == [s];
    assert SplitLargeParents([s], split) == [s];
    assert headerSplit(text) == [s];
  }

  /** A splitter that cuts a text longer than the chunk size once, at the
      chunk size. On texts up to twice the chunk size it honours the bound. */
  function CutOnce(size: nat, overlap: nat, t: string): (pieces: seq<string>)
    ensures |t| <= 2 * size ==> forall k :: 0 <= k < |pieces| ==> |pieces[k]| <= size
  {
    if |t| <= size then [t] else [t[..size], t[size..]]
  }

  /** Two sections that both reach MinParentSize pass the merge unchanged. */
  lemma MergeTwoLongSections(a: Document, b: Document)
    requires |a.pageContent| >= MinParentSize && |b.pageContent| >= MinParentSize
    ensures MergeSmallParents([a, b]) == [a, b]
  {
    assert [a, b][1..] == [b] && [b][1..] == [];
    assert [] + [a] == [a] && [a] + [b] == [a, b];
    assert MergeLoop([a, b], [], None) == MergeLoop([b], [a], None);
    assert MergeLoop([b], [a], None) == MergeLoop([], [a, b], None);
  }

  /** A long section followed by a short one, then a kept one: the short one
      is glued onto the long one. */
  lemma CleanGluesShortMiddle(p1: Document, p2: Document, b: Document)
    requires |p1.pageContent| >= MinParentSize && |p2.pageContent| < MinParentSize
    requires |b.pageContent| >= MinParentSize
    ensures CleanSmallChunks([p1, p2, b]) == [AppendText(p1, p2.pageContent), b]
  {
    var glued := AppendText(p1, p2.pageContent);
    assert [p1, p2, b][1..] == [p2, b] && [p2, b][1..] == [b] && [b][1..] == [];
    assert CleanLoop([p1, p2, b], []) == CleanLoop([p2, b], [p1]);
    assert [p1][..0] + [glued] == [glued];
    assert CleanLoop([p2, b], [p1]) == CleanLoop([b], [glued]);
    assert CleanLoop([b], [glued]) == CleanLoop([], [glued, b]);
  }

  /** As written, the clean pass can undo the split pass. A section of 11000
      characters is cut into 10000 and 1000 characters, the short piece is
      glued back onto the piece before it, and the first of the two parents
      (not the last) exceeds MaxParentSize, although every piece the splitter
      returned was within it. */
  lemma CleanCanExceedMax(a: Document, b: Document)
    requires |a.pageContent| == 11000 && |b.pageContent| == 5000
    ensures var parents := NormalizedParents([a, b], CutOnce);
      && |parents| == 2
      && |parents[0].pageContent| == 11002 > MaxParentSize
      && parents[0].pageContent == a.pageContent[..10000] + ParagraphBreak + a.pageContent[10000..]
  {
    MergeTwoLongSections(a, b);
    var p1 := Document(a.pageContent[..10000], a.metadata);
    var p2 := Document(a.pageContent[10000..], a.metadata);
    assert SplitOne(a, CutOnce) == [p1, p2];
    assert SplitOne(b, CutOnce) == [b];
    assert [a, b][1..] == [b] && [b][1..] == [];
    assert SplitLargeParents([b], CutOnce) == [b] + SplitLargeParents([], CutOnce);
    assert SplitLargeParents([a, b], CutOnce) == [p1, p2, b];
    CleanGluesShortMiddle(p1, p2, b);
  }

  /** `create_chunks`: the documents of a directory, in (sorted) path order,
      given as (stem, text) pairs; their pairs and children are concatenated. */
  function ChunkDirectory(docs: seq<(string, string)>, headerSplit: string -> seq<Document>, split: SplitText)
    : (seq<(string, Document)>, seq<Document>)
    decreases |docs|
  {
    if |docs| == 0 then ([], [])
    else
      var first := ChunkDocument(docs[0].0, docs[0].1, headerSplit, split);
      var rest := ChunkDirectory(docs[1..], headerSplit, split);
      (first.0 + rest.0, first.1 + rest.1)
  }

  predicate DistinctStems(docs: seq<(string, string)>) {
    forall a, b :: 0 <= a < b < |docs| ==> docs[a].0 != docs[b].0
  }

  predicate DistinctIds(pairs: seq<(string, Document)>) {
    forall a, b :: 0 <= a < b < |pairs| ==> pairs[a].0 != pairs[b].0
  }

  /** The k-th pair of a document carries the id "{stem}_parent_{k}". */
  lemma DocumentPairIds(stem: string, parents: seq<Document>)
    ensures var pairs := PairsFrom(stem, parents, 0);
      forall k :: 0 <= k < |pairs| ==> pairs[k].0 == ParentId(stem, k)
  {
    PairsFromSpec(stem, parents, 0);
    var pairs := PairsFrom(stem, parents, 0);
    forall k | 0 <= k < |pairs|
      ensures pairs[k].0 == ParentId(stem, k)
    {
      assert pairs[k] == ParentPair(stem, parents, k);
    }
  }

  /** The id is "{stem}_parent_{i}" for the stem of one of the documents. */
  ghost predicate IdFromStems(id: string, docs: seq<(string, string)>) {
    exists d: nat, i: nat :: d < |docs| && id == ParentId(docs[d].0, i)
  }

  /** Every parent id of a directory run has the form "{stem}_parent_{i}" for
      the stem of one of its documents. */
  lemma {:induction false} DirectoryIdsFromStems(docs: seq<(string, string)>, headerSplit: string -> seq<Document>, split: SplitText)
    ensures forall n :: 0 <= n < |ChunkDirectory(docs, headerSplit, split).0| ==>
      IdFromStems(ChunkDirectory(docs, headerSplit, split).0[n].0, docs)
    decreases |docs|
  {
    if |docs| > 0 {
      var parents := NormalizedParents(headerSplit(docs[0].1), split);
      var first := PairsFrom(docs[0].0, parents, 0);
      var rest := ChunkDirectory(docs[1..], headerSplit, split).0;
      var pairs := ChunkDirectory(docs, headerSplit, split).0;
      assert pairs == first + rest;
      DocumentPairIds(docs[0].0, parents);
      DirectoryIdsFromStems(docs[1..], headerSplit, split);
      forall n | 0 <= n < |pairs|
        ensures IdFromStems(pairs[n].0, docs)
      {
        if n < |first| {
          assert pairs[n].0 == ParentId(docs[0].0, n);
        } else {
          var m := n - |first|;
          assert pairs[n] == rest[m];
          assert IdFromStems(rest[m].0, docs[1..]);
          var d: nat, i: nat :| d < |docs[1..]| && rest[m].0 == ParentId(docs[1..][d].0, i);
          assert pairs[n].0 == ParentId(docs[d + 1].0, i);
        }
      }
    }
  }

  /** With distinct stems, no parent id of the later documents has the first
      document's stem. */
  lemma LaterIdsAvoidFirstStem(docs: seq<(string, string)>, headerSplit: string -> seq<Document>, split: SplitText, j: nat, k: nat)
    requires DistinctStems(docs) && |docs| > 0
    requires j < |ChunkDirectory(docs[1..], headerSplit, split).0|
    ensures ChunkDirectory(docs[1..], headerSplit, split).0[j].0 != ParentId(docs[0].0, k)
  {
    var rest := ChunkDirectory(docs[1..], headerSplit, split).0;
    DirectoryIdsFromStems(docs[1..], headerSplit, split);
    assert IdFromStems(rest[j].0, docs[1..]);
    var d: nat, i: nat :| d < |docs[1..]| && rest[j].0 == ParentId(docs[1..][d].0, i);
    if rest[j].0 == ParentId(docs[0].0, k) {
      ParentIdInjective(docs[0].0, k, docs[d + 1].0, i);
    }
  }

  /** Documents with distinct stems get pairwise distinct parent ids, so the
      parents of a whole directory can share one store without overwriting
      each other. */
  lemma {:induction false} DirectoryIdsDistinct(docs: seq<(string, string)>, headerSplit: string -> seq<Document>, split: SplitText)
    requires DistinctStems(docs)
    ensures DistinctIds(ChunkDirectory(docs, headerSplit, split).0)
    decreases |docs|
  {
    if |docs| > 0 {
      var parents := NormalizedParents(headerSplit(docs[0].1), split);
      var first := PairsFrom(docs[0].0, parents, 0);
      var rest := ChunkDirectory(docs[1..], headerSplit, split).0;
      var pairs := ChunkDirectory(docs, headerSplit, split).0;
      assert pairs == first + rest;
      DocumentPairIds(docs[0].0, parents);
      ParentIdsDistinct(docs[0].0, parents);
      DirectoryIdsDistinct(docs[1..], headerSplit, split);
      forall a, b | 0 <= a < b < |pairs|
        ensures pairs[a].0 != pairs[b].0
      {
        if b < |first| {
          assert pairs[a] == first[a] && pairs[b] == first[b];
        } else if |first| <= a {
          assert pairs[a] == rest[a - |first|] && pairs[b] == rest[b - |first|];
        } else {
          assert pairs[a].0 == ParentId(docs[0].0, a);
          assert pairs[b] == rest[b - |first|];
          LaterIdsAvoidFirstStem(docs, headerSplit, split, b - |first|, a);
        }
      }
    }
  }
}
