/** Properties that cross component boundaries: what the chunker saves is what
    the retrieval tool finds, the fan-out and the reducer together hand the
    aggregator every answer in question order, and what summarize's early
    returns leave behind. */
module Pipeline {
  import opened Strings
  import opened Documents
  import opened DocumentChunker
  import opened ParentStore
  import opened Tools
  import opened GraphState
  import opened Edges
  import opened Nodes

  // ===========================================================================
  // Indexing, then retrieval
  // ===========================================================================

  /** After a document's parents are saved, the parent_id on each of its
      children loads the parent the child was split from. */
  lemma ChildFindsItsParent(stem: string, text: string, headerSplit: string -> seq<Document>, split: SplitText, c: nat)
    requires c < |ChunkDocument(stem, text, headerSplit, split).1|
    ensures var pairs := ChunkDocument(stem, text, headerSplit, split).0;
      var child := ChunkDocument(stem, text, headerSplit, split).1[c];
      && "parent_id" in child.metadata
      && (exists k :: 0 <= k < |pairs|
            && child in ChildrenOf(pairs[k], split)
            && Load(SaveMany(EmptyStore, pairs), child.metadata["parent_id"]) == Some(RecordOf(pairs[k].1)))
  {
    var parents := NormalizedParents(headerSplit(text), split);
    var pairs := PairsFrom(stem, parents, 0);
    var child := ChildrenFrom(stem, parents, split, 0)[c];
    ChildrenLinked(stem, parents, split, 0, c);
    var k :| 0 <= k < |parents|
      && "parent_id" in child.metadata
      && child.metadata["parent_id"] == ParentId(stem, k)
      && child in ChildrenOf(ParentPair(stem, parents, k), split);
    PairsFromSpec(stem, parents, 0);
    assert pairs[k] == ParentPair(stem, parents, k);
    ParentIdsDistinct(stem, parents);
    SaveManyDistinct(EmptyStore, pairs, k);
  }

  /** Because the store writes "page_content" and the tool reads "content"
      and a top-level "parent_id", fetching a saved parent through the tool
      shows parent id "n/a", the document's file name and no content. */
  lemma RetrievedParentIsEmpty(stem: string, parents: seq<Document>, k: nat)
    requires k < |parents|
    ensures var pairs := PairsFrom(stem, parents, 0);
      RetrieveParentChunks(StoreLoader(SaveMany(EmptyStore, pairs)), ParentId(stem, k))
        == ParentIdLabel + "n/a" + FileNameLabel + SourceName(stem) + ContentLabel
  {
    var pairs := PairsFrom(stem, parents, 0);
    PairsFromSpec(stem, parents, 0);
    assert pairs[k] == ParentPair(stem, parents, k);
    ParentPairSpec(stem, parents, k);
    ParentIdsDistinct(stem, parents);
    SaveManyDistinct(EmptyStore, pairs, k);
    var loader := StoreLoader(SaveMany(EmptyStore, pairs));
    assert loader(ParentId(stem, k)) == Loaded(Some(RecordOf(pairs[k].1)));
    FoundParentShowsNoContent(loader, ParentId(stem, k));
  }

  // ===========================================================================
  // Rewrite, fan-out, answers, aggregation
  // ===========================================================================

  /** The pass-through rewrite always leads to a single task: the latest
      message's text, with ordinal 0 and an empty scratchpad. */
  lemma RewriteThenRoute(s: State)
    requires |s.messages| > 0
    ensures RouteAfterRewrite(Apply(s, Rewrite(s)))
      == Fanout([Send(ProcessQuestionNode, TaskInput(s.messages[|s.messages| - 1].content, 0, []))])
  {
    var t := Apply(s, Rewrite(s));
    var r := RouteAfterRewrite(t);
    assert |r.sends| == 1;
    assert r.sends[0] == Send(ProcessQuestionNode, TaskInput(t.rewrittenQuestions[0], 0, []));
  }

  /** The record task i writes: its ordinal, its question and its answer. */
  function TaskRecords(questions: seq<string>, answers: seq<string>): (rs: seq<AnswerItem>)
    requires |answers| == |questions|
    ensures |rs| == |questions|
    ensures forall i :: 0 <= i < |rs| ==> rs[i] == AnswerRecord(i, questions[i], answers[i])
  {
    seq(|questions|, i requires 0 <= i < |questions| => AnswerRecord(i, questions[i], answers[i]))
  }

  /** Each record arriving as its own write, as parallel subgraph runs
      deliver them. */
  function Singletons(items: seq<AnswerItem>): (bs: seq<seq<AnswerItem>>)
    ensures |bs| == |items|
    ensures forall j :: 0 <= j < |bs| ==> bs[j] == [items[j]]
  {
    seq(|items|, j requires 0 <= j < |items| => [items[j]])
  }

  lemma {:induction false} FlattenSingletons(items: seq<AnswerItem>)
    ensures Flatten(Singletons(items)) == items
    decreases |items|
  {
    if |items| > 0 {
      assert Singletons(items)[1..] == Singletons(items[1..]);
      FlattenSingletons(items[1..]);
      assert items == [items[0]] + items[1..];
    }
  }

  /** Records that are a permutation of answer records carry no reset marker,
      so no single-record write resets. */
  lemma SingletonsResetFree(arrived: seq<AnswerItem>, canonical: seq<AnswerItem>)
    requires NoResetMarkers(canonical) && multiset(arrived) == multiset(canonical)
    ensures forall j :: 0 <= j < |Singletons(arrived)| ==> !HasReset(Singletons(arrived)[j])
  {
    var batches := Singletons(arrived);
    forall j | 0 <= j < |batches|
      ensures !HasReset(batches[j])
    {
      assert arrived[j] in multiset(canonical);
      var i :| 0 <= i < |canonical| && canonical[i] == arrived[j];
      assert batches[j] == [arrived[j]];
    }
  }

  /** Reset-free single-record writes onto the empty list collect every record
      in arrival order. */
  lemma CollectSingletons(arrived: seq<AnswerItem>)
    requires forall j :: 0 <= j < |Singletons(arrived)| ==> !HasReset(Singletons(arrived)[j])
    ensures ApplyWrites([], Singletons(arrived)) == arrived
  {
    var batches := Singletons(arrived);
    ApplyWritesSpec([], batches);
    assert AfterLastReset(batches) == 0;
    assert batches[0..] == batches;
    FlattenSingletons(arrived);
  }

  /** Whatever order the N subgraph runs finish in, the reducer collects all N
      records (starting from the list summarize just reset), and sorting them
      gives the records in question order: record i holds question i and the
      answer of the run that got question i. */
  lemma FanInRestoresQuestionOrder(s: State, answers: seq<string>, arrived: seq<AnswerItem>)
    requires IsClear(s) && |answers| == |s.rewrittenQuestions|
    requires multiset(arrived) == multiset(TaskRecords(s.rewrittenQuestions, answers))
    ensures var tasks := RouteAfterRewrite(s).sends;
      var collected := ApplyWrites([], Singletons(arrived));
      && collected == arrived
      && SortByIndex(collected) == TaskRecords(TaskQuestions(tasks), answers)
  {
    var canonical := TaskRecords(s.rewrittenQuestions, answers);
    SingletonsResetFree(arrived, canonical);
    CollectSingletons(arrived);
    SortIgnoresArrivalOrder(arrived, canonical);
    FanoutCarriesQuestions(s);
  }

  /** Two arrival orders of the same runs' records produce the same
      aggregation call and the same final message. */
  lemma FanInIgnoresArrivalOrder(s: State, answers: seq<string>, a1: seq<AnswerItem>, a2: seq<AnswerItem>,
                                 llm: Llm, prompts: Prompts)
    requires |answers| == |s.rewrittenQuestions|
    requires multiset(a1) == multiset(TaskRecords(s.rewrittenQuestions, answers))
    requires multiset(a2) == multiset(TaskRecords(s.rewrittenQuestions, answers))
    ensures NoResetMarkers(a1) && NoResetMarkers(a2)
    ensures Aggregate(s.(agentAnswers := a1), llm, prompts) == Aggregate(s.(agentAnswers := a2), llm, prompts)
  {
    var canonical := TaskRecords(s.rewrittenQuestions, answers);
    forall j | 0 <= j < |a1|
      ensures a1[j].AnswerRecord?
    {
      assert a1[j] in multiset(canonical);
    }
    forall j | 0 <= j < |a2|
      ensures a2[j].AnswerRecord?
    {
      assert a2[j] in multiset(canonical);
    }
    AggregateIgnoresArrivalOrder(s.(agentAnswers := a1), s.(agentAnswers := a2), canonical, llm, prompts);
  }

  // ===========================================================================
  // Stale answers
  // ===========================================================================

  /** Summarize clears the collected answers only when it calls the model; on
      its early returns the previous turn's answers stay in the state. */
  lemma SummarizeClearsOnlyOnModelPath(s: State, llm: Llm, prompts: Prompts)
    ensures |s.messages| < MinMessagesForSummary ==>
      Apply(s, Summarize(s, llm, prompts)).agentAnswers == s.agentAnswers
    ensures |s.messages| >= MinMessagesForSummary && |Relevant(History(s.messages))| > 0 ==>
      Apply(s, Summarize(s, llm, prompts)).agentAnswers == []
  {
    if |s.messages| >= MinMessagesForSummary && |Relevant(History(s.messages))| > 0 {
      assert Summarize(s, llm, prompts).agentAnswers == Some([ResetMarker]);
      assert HasReset([ResetMarker]) by {
        assert [ResetMarker][0].ResetMarker?;
      }
    }
  }

  /** When the conversation opens with a user message and holds at least four
      messages, neither early return applies: summarize calls the model and
      the previous answers are cleared. */
  lemma SummarizeClearsOnLaterTurns(s: State, llm: Llm, prompts: Prompts)
    requires |s.messages| >= MinMessagesForSummary && s.messages[0].HumanMessage?
    ensures Summarize(s, llm, prompts).agentAnswers == Some([ResetMarker])
    ensures Apply(s, Summarize(s, llm, prompts)).agentAnswers == []
  {
    SummarizeResetIff(s, llm, prompts);
    assert Qualifies(s.messages[0]);
    assert HasReset([ResetMarker]) by {
      assert [ResetMarker][0].ResetMarker?;
    }
  }

  /** A stale answer with the same ordinal as a new one is sorted before it
      (the sort is stable), so the aggregator sees the stale answer as
      "Answer 1". */
  lemma StaleAnswerSortsFirst(q: string, stale: string, newer: string)
    ensures SortByIndex([AnswerRecord(0, q, stale), AnswerRecord(0, q, newer)])
      == [AnswerRecord(0, q, stale), AnswerRecord(0, q, newer)]
  {
    var old0 := AnswerRecord(0, q, stale);
    var new0 := AnswerRecord(0, q, newer);
    assert [old0, new0][..1] == [old0];
    assert [old0][..0] == [];
    assert SortByIndex([old0]) == [old0];
  }
}
