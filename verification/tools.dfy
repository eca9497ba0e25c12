/** The two retrieval tools of project/rag_agent/tools.py. Each turns the
    outcome of a search or a store load into the text the agent reads:
    formatted hits or a parent section, a sentinel when nothing was found, or
    an error line instead of an exception. */
module Tools {
  import opened Strings
  import opened Documents
  import opened ParentStore

  const NoRelevantChunks: string := "NO_RELEVANT_CHUNKS"
  const RetrievalErrorPrefix: string := "RETRIEVAL_ERROR: "
  const NoParentDocument: string := "NO_PARENT_DOCUMENT"
  const ParentRetrievalErrorPrefix: string := "PARENT_RETRIEVAL_ERROR: "

  const ParentIdLabel: string := "Parent ID: "
  const FileNameLabel: string := "\nFile Name: "
  const ContentLabel: string := "\nContent: "
  const HitSeparator: string := "\n\n"

  /** Only hits scoring at least this are returned by the index. */
  const ScoreThreshold: real := 0.7

  /** What the tool asks the external index for. */
  datatype SearchRequest = SearchRequest(query: string, k: int, scoreThreshold: real)

  /** What the external index answers: the hits, or the message of the
      exception it raised. */
  datatype SearchOutcome = Hits(docs: seq<Document>) | SearchFailed(message: string)

  /** What loading a parent gives: the record or None, or the message of the
      exception raised while reading it. */
  datatype LoadOutcome = Loaded(record: Option<ParentRecord>) | LoadFailed(message: string)

  /** `metadata.get(key, default)`. */
  function MetaGet(metadata: map<string, string>, key: string, default: string): string {
    if key in metadata then metadata[key] else default
  }

  predicate StartsWith(s: string, prefix: string) {
    |prefix| <= |s| && s[..|prefix|] == prefix
  }

  // ===========================================================================
  // search_child_chunks
  // ===========================================================================

  /** The block for one hit: its parent id, its file name and its stripped
      content, with missing metadata shown as "". */
  function HitBlock(d: Document): string {
    ParentIdLabel + MetaGet(d.metadata, "parent_id", "") + FileNameLabel
      + MetaGet(d.metadata, "source", "") + ContentLabel + Strip(d.pageContent)
  }

  function HitBlocks(docs: seq<Document>): (blocks: seq<string>)
    ensures |blocks| == |docs|
    ensures forall i :: 0 <= i < |docs| ==> blocks[i] == HitBlock(docs[i])
  {
    seq(|docs|, i requires 0 <= i < |docs| => HitBlock(docs[i]))
  }

  /** `_search_child_chunks`: asks the index for `limit` hits above the
      threshold and formats the answer. */
  function SearchChildChunks(index: SearchRequest -> SearchOutcome, query: string, limit: int): string {
    match index(SearchRequest(query, limit, ScoreThreshold))
    case SearchFailed(message) => RetrievalErrorPrefix + message
    case Hits(docs) =>
      if |docs| == 0 then NoRelevantChunks else Join(HitBlocks(docs), HitSeparator)
  }

  /** The index is asked exactly one question: the query with k = limit and
      the 0.7 score threshold. Two indexes that answer that request alike
      give the same text, whatever they would answer to any other request. */
  lemma SearchAsksOnce(i1: SearchRequest -> SearchOutcome, i2: SearchRequest -> SearchOutcome, query: string, limit: int)
    requires i1(SearchRequest(query, limit, 0.7)) == i2(SearchRequest(query, limit, 0.7))
    ensures SearchChildChunks(i1, query, limit) == SearchChildChunks(i2, query, limit)
  {
  }

  /** What the agent can tell from the tool's text alone. */
  datatype SearchReading = ReadNoResults | ReadFailure | ReadHits

  function ReadSearch(text: string): SearchReading {
    if text == NoRelevantChunks then ReadNoResults
    else if StartsWith(text, RetrievalErrorPrefix) then ReadFailure
    else ReadHits
  }

  /** Texts that differ in their first character are different, and neither
      is a prefix of the other. */
  lemma FirstCharDiffers(t: string, u: string)
    requires |t| > 0 && |u| > 0 && t[0] != u[0]
    ensures t != u && !StartsWith(t, u)
  {
  }

  /** An error line reads as a failure and gives back the message. */
  lemma ErrorLineReads(message: string)
    ensures ReadSearch(RetrievalErrorPrefix + message) == ReadFailure
    ensures (RetrievalErrorPrefix + message)[|RetrievalErrorPrefix|..] == message
  {
    var text := RetrievalErrorPrefix + message;
    assert text[..|RetrievalErrorPrefix|] == RetrievalErrorPrefix;
    FirstCharDiffers(text, NoRelevantChunks);
  }

  /** A hit block begins with the parent-id label. */
  lemma HitBlockFirstChar(d: Document)
    ensures |HitBlock(d)| > 0 && HitBlock(d)[0] == ParentIdLabel[0]
  {
  }

  /** A join begins with the first character of its first part. */
  lemma JoinFirstChar(parts: seq<string>, sep: string)
    requires |parts| > 0 && |parts[0]| > 0
    ensures |Join(parts, sep)| > 0 && Join(parts, sep)[0] == parts[0][0]
  {
    var rest := JoinHead(parts, sep);
  }

  /** The formatted hits begin with the label of the first hit's parent id. */
  lemma HitsStartWithLabel(docs: seq<Document>)
    requires |docs| > 0
    ensures var text := Join(HitBlocks(docs), HitSeparator);
      |text| > 0 && text[0] == ParentIdLabel[0]
  {
    HitBlockFirstChar(docs[0]);
    JoinFirstChar(HitBlocks(docs), HitSeparator);
  }

  /** Formatted hits read as hits. */
  lemma HitsRead(docs: seq<Document>)
    requires |docs| > 0
    ensures ReadSearch(Join(HitBlocks(docs), HitSeparator)) == ReadHits
  {
    var text := Join(HitBlocks(docs), HitSeparator);
    HitsStartWithLabel(docs);
    FirstCharDiffers(text, NoRelevantChunks);
    FirstCharDiffers(text, RetrievalErrorPrefix);
  }

  /** One hit is shown as its block alone. */
  lemma SearchSingleHit(index: SearchRequest -> SearchOutcome, query: string, limit: int, d: Document)
    requires index(SearchRequest(query, limit, ScoreThreshold)) == Hits([d])
    ensures SearchChildChunks(index, query, limit) == HitBlock(d)
  {
  }

  /** The hits are shown one block per hit, in result order, separated by a
      blank line: the answer for hits a + b is the answer for a, a blank line,
      then the answer for b. */
  lemma SearchHitsConcatenate(i: SearchRequest -> SearchOutcome, ia: SearchRequest -> SearchOutcome,
                              ib: SearchRequest -> SearchOutcome, query: string, limit: int)
    requires ia(SearchRequest(query, limit, ScoreThreshold)).Hits?
    requires ib(SearchRequest(query, limit, ScoreThreshold)).Hits?
    requires var a := ia(SearchRequest(query, limit, ScoreThreshold)).docs;
      var b := ib(SearchRequest(query, limit, ScoreThreshold)).docs;
      |a| > 0 && |b| > 0 && i(SearchRequest(query, limit, ScoreThreshold)) == Hits(a + b)
    ensures SearchChildChunks(i, query, limit)
         == SearchChildChunks(ia, query, limit) + HitSeparator + SearchChildChunks(ib, query, limit)
  {
    var a := ia(SearchRequest(query, limit, ScoreThreshold)).docs;
    var b := ib(SearchRequest(query, limit, ScoreThreshold)).docs;
    assert HitBlocks(a + b) == HitBlocks(a) + HitBlocks(b);
    JoinAppend(HitBlocks(a), HitBlocks(b), HitSeparator);
  }

  /** The three outcomes of a search are told apart by the text: an empty
      answer reads exactly "NO_RELEVANT_CHUNKS", a failure reads as
      "RETRIEVAL_ERROR: " plus the message, and hits read as hits. */
  lemma SearchOutcomesDistinguishable(index: SearchRequest -> SearchOutcome, query: string, limit: int)
    ensures var text := SearchChildChunks(index, query, limit);
      match index(SearchRequest(query, limit, ScoreThreshold))
      case SearchFailed(message) => ReadSearch(text) == ReadFailure && text[|RetrievalErrorPrefix|..] == message
      case Hits(docs) => ReadSearch(text) == (if |docs| == 0 then ReadNoResults else ReadHits)
  {
    match index(SearchRequest(query, limit, ScoreThreshold))
    case SearchFailed(message) =>
      ErrorLineReads(message);
    case Hits(docs) =>
      if |docs| > 0 {
        HitsRead(docs);
      }
  }

  /** The first line of a text (everything before the first newline). */
  function FirstLine(s: string): (line: string)
    ensures |line| <= |s| && line == s[..|line|]
    ensures '\n' !in line
    ensures |line| < |s| ==> s[|line|] == '\n'
    decreases |s|
  {
    if |s| == 0 || s[0] == '\n' then "" else [s[0]] + FirstLine(s[1..])
  }

  lemma {:induction false} FirstLineOfConcat(a: string, b: string)
    requires '\n' !in a
    ensures FirstLine(a + "\n" + b) == a
    decreases |a|
  {
    if |a| > 0 {
      assert (a + "\n" + b)[1..] == a[1..] + "\n" + b;
      FirstLineOfConcat(a[1..], b);
    } else {
      assert (a + "\n" + b)[0] == '\n';
    }
  }

  /** The parent id a reader takes from the head of a search answer. */
  function ReadParentId(text: string): string {
    if StartsWith(text, ParentIdLabel) then FirstLine(text[|ParentIdLabel|..]) else ""
  }

  /** A text that begins with the parent-id line of `pid` reads back `pid`. */
  lemma ReadParentIdOf(pid: string, tail: string)
    requires '\n' !in pid
    ensures ReadParentId(ParentIdLabel + pid + "\n" + tail) == pid
  {
    var t := ParentIdLabel + pid + "\n" + tail;
    assert t[..|ParentIdLabel|] == ParentIdLabel;
    assert t[|ParentIdLabel|..] == pid + "\n" + tail;
    FirstLineOfConcat(pid, tail);
  }

  /** A hit block is its parent-id line followed by the rest of the block. */
  lemma HitBlockShape(d: Document)
    ensures HitBlock(d) == ParentIdLabel + MetaGet(d.metadata, "parent_id", "") + "\n"
      + ("File Name: " + MetaGet(d.metadata, "source", "") + ContentLabel + Strip(d.pageContent))
  {
    assert FileNameLabel == "\n" + "File Name: ";
  }

  /** A join begins with its first part. */
  lemma JoinHead(parts: seq<string>, sep: string) returns (rest: string)
    requires |parts| > 0
    ensures Join(parts, sep) == parts[0] + rest
  {
    rest := if |parts| == 1 then "" else sep + Join(parts[1..], sep);
  }

  /** Round trip: the parent id printed for the first hit is read back from the
      search answer, as long as it holds no newline. */
  lemma SearchParentIdRoundTrip(index: SearchRequest -> SearchOutcome, query: string, limit: int)
    requires index(SearchRequest(query, limit, ScoreThreshold)).Hits?
    requires |index(SearchRequest(query, limit, ScoreThreshold)).docs| > 0
    requires '\n' !in MetaGet(index(SearchRequest(query, limit, ScoreThreshold)).docs[0].metadata, "parent_id", "")
    ensures ReadParentId(SearchChildChunks(index, query, limit))
         == MetaGet(index(SearchRequest(query, limit, ScoreThreshold)).docs[0].metadata, "parent_id", "")
  {
    var docs := index(SearchRequest(query, limit, ScoreThreshold)).docs;
    var blocks := HitBlocks(docs);
    var pid := MetaGet(docs[0].metadata, "parent_id", "");
    var afterId := "File Name: " + MetaGet(docs[0].metadata, "source", "") + ContentLabel + Strip(docs[0].pageContent);
    HitBlockShape(docs[0]);
    var rest := JoinHead(blocks, HitSeparator);
    assert SearchChildChunks(index, query, limit) == blocks[0] + rest;
    assert blocks[0] + rest == ParentIdLabel + pid + "\n" + (afterId + rest);
    ReadParentIdOf(pid, afterId + rest);
  }

  // ===========================================================================
  // retrieve_parent_chunks
  // ===========================================================================

  /** The formatted parent: it reads the top-level keys "parent_id" and
      "content" and the metadata's "source", with defaults "n/a", "" and
      "unknown". */
  function FormatParent(r: ParentRecord): string {
    ParentIdLabel + StringField(r, "parent_id").GetOr("n/a")
      + FileNameLabel + MetaGet(r.metadata, "source", "unknown")
      + ContentLabel + Strip(StringField(r, "content").GetOr(""))
  }

  /** `_retrieve_parent_chunks`. A stored record always has two keys, so it is
      never falsy; only a missing record gives the sentinel. */
  function RetrieveParentChunks(load: string -> LoadOutcome, parentId: string): string {
    match load(parentId)
    case LoadFailed(message) => ParentRetrievalErrorPrefix + message
    case Loaded(None) => NoParentDocument
    case Loaded(Some(r)) => FormatParent(r)
  }

  /** The store writes "page_content" while the tool reads "content" and a
      top-level "parent_id": a found parent is always shown with parent id
      "n/a" and empty content, whatever was saved. */
  lemma FoundParentShowsNoContent(load: string -> LoadOutcome, parentId: string)
    requires load(parentId).Loaded? && load(parentId).record.Some?
    ensures var r := load(parentId).record.value;
      RetrieveParentChunks(load, parentId)
        == ParentIdLabel + "n/a" + FileNameLabel + MetaGet(r.metadata, "source", "unknown") + ContentLabel
  {
    var r := load(parentId).record.value;
    assert StringField(r, "parent_id") == None;
    assert StringField(r, "content") == None;
    assert Strip("") == "";
  }

  /** A text that begins with a given prefix, followed by the rest. */
  lemma PrefixThenRest(prefix: string, rest: string)
    ensures StartsWith(prefix + rest, prefix) && (prefix + rest)[|prefix|..] == rest
  {
    assert (prefix + rest)[..|prefix|] == prefix;
  }

  /** The outcomes of a parent fetch are told apart by the text. */
  lemma RetrieveOutcomesDistinguishable(load: string -> LoadOutcome, parentId: string)
    ensures var text := RetrieveParentChunks(load, parentId);
      match load(parentId)
      case LoadFailed(message) =>
        StartsWith(text, ParentRetrievalErrorPrefix) && text[|ParentRetrievalErrorPrefix|..] == message
      case Loaded(None) => text == NoParentDocument
      case Loaded(Some(_)) => StartsWith(text, ParentIdLabel) && text != NoParentDocument
  {
    match load(parentId)
    case LoadFailed(message) =>
      PrefixThenRest(ParentRetrievalErrorPrefix, message);
    case Loaded(None) =>
    case Loaded(Some(r)) =>
      var rest := StringField(r, "parent_id").GetOr("n/a")
        + FileNameLabel + MetaGet(r.metadata, "source", "unknown")
        + ContentLabel + Strip(StringField(r, "content").GetOr(""));
      assert FormatParent(r) == ParentIdLabel + rest;
      PrefixThenRest(ParentIdLabel, rest);
      FirstCharDiffers(ParentIdLabel + rest, NoParentDocument);
  }

  /** The loader the tool uses against a store the model can see. */
  function StoreLoader(store: Store): string -> LoadOutcome {
    id => Loaded(LoadContent(store, id))
  }
}
