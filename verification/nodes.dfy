/** The node functions of project/rag_agent/nodes.py. The language model is a
    parameter: a function from the call it receives (its configuration and
    its input messages) to the message it answers with. Prompt texts come
    from a module that is not part of this model and are parameters too. */
module Nodes {
  import opened Strings
  import opened GraphState

  /** How the model object was configured before `invoke`. */
  datatype Binding = Plain | WithTemperature(temperature: real) | WithTools

  datatype LlmCall = LlmCall(binding: Binding, input: seq<Message>)

  /** The language model: whatever it answers for a given call. */
  type Llm = LlmCall -> Message

  /** The prompt texts the nodes send as system messages. */
  datatype Prompts = Prompts(conversationSummary: string, ragAgent: string, aggregation: string)

  const SummaryTemperature: real := 0.2
  const MinMessagesForSummary: nat := 4
  const SummaryWindowSize: nat := 6
  const ConversationHeader: string := "Conversation history:\n"
  const FallbackAnswer: string := "Unable to generate an answer."
  const NoAnswersMessage: string := "No answers were generated."
  const AnswerHeading: string := "\nAnswer "
  const AnswerColon: string := ":\n"
  const LineEnd: string := "\n"

  // ===========================================================================
  // analyze_chat_and_summarize
  // ===========================================================================

  /** A message the summary may use: a human message, or an AI message that
      asks for no tool. */
  predicate Qualifies(m: Message) {
    m.HumanMessage? || (m.AIMessage? && |m.toolCalls| == 0)
  }

  /** The qualifying messages of a list, in order. */
  function Relevant(msgs: seq<Message>): (r: seq<Message>)
    ensures |r| <= |msgs|
    ensures forall i :: 0 <= i < |r| ==> Qualifies(r[i])
    decreases |msgs|
  {
    if |msgs| == 0 then []
    else if Qualifies(msgs[0]) then [msgs[0]] + Relevant(msgs[1..])
    else Relevant(msgs[1..])
  }

  /** A message is kept exactly when it qualifies, and filtering a
      concatenation concatenates the filtered parts (so order is kept). */
  lemma {:induction false} RelevantMembership(msgs: seq<Message>, m: Message)
    ensures m in Relevant(msgs) <==> m in msgs && Qualifies(m)
    decreases |msgs|
  {
    if |msgs| > 0 {
      RelevantMembership(msgs[1..], m);
      assert msgs == [msgs[0]] + msgs[1..];
    }
  }

  lemma {:induction false} RelevantAppend(a: seq<Message>, b: seq<Message>)
    ensures Relevant(a + b) == Relevant(a) + Relevant(b)
    decreases |a|
  {
    if |a| == 0 {
      assert a + b == b;
    } else {
      assert (a + b)[0] == a[0];
      assert (a + b)[1..] == a[1..] + b;
      RelevantAppend(a[1..], b);
    }
  }

  /** `relevant_msgs[-6:]`: the last six, or all when there are fewer. */
  function SummaryWindow(relevant: seq<Message>): (w: seq<Message>)
    ensures |w| == if |relevant| < SummaryWindowSize then |relevant| else SummaryWindowSize
    ensures w == relevant[|relevant| - |w|..]
  {
    if |relevant| <= SummaryWindowSize then relevant else relevant[|relevant| - SummaryWindowSize..]
  }

  function RoleLabel(m: Message): string {
    if m.HumanMessage? then "User" else "Assistant"
  }

  function Transcript(window: seq<Message>): string
    decreases |window|
  {
    if |window| == 0 then "" else RoleLabel(window[0]) + ": " + window[0].content + "\n" + Transcript(window[1..])
  }

  /** The text the summary call is given. */
  function Conversation(window: seq<Message>): string {
    ConversationHeader + Transcript(window)
  }

  /** The messages the summary looks at: every one but the latest. */
  function History(msgs: seq<Message>): seq<Message> {
    if |msgs| == 0 then [] else msgs[..|msgs| - 1]
  }

  function SummaryOnly(summary: string, answers: Option<seq<AnswerItem>>): StateUpdate {
    StateUpdate([], None, Some(summary), None, None, answers)
  }

  /** `analyze_chat_and_summarize`. */
  function Summarize(s: State, llm: Llm, prompts: Prompts): (u: StateUpdate)
    ensures u.newMessages == [] && u.questionIsClear.None? && u.originalQuery.None?
    ensures u.rewrittenQuestions.None? && u.conversationSummary.Some?
    ensures u.agentAnswers.Some? ==> u.agentAnswers.value == [ResetMarker]
    ensures u.agentAnswers.None? ==> u.conversationSummary.value == ""
  {
    if |s.messages| < MinMessagesForSummary then SummaryOnly("", None)
    else
      var relevant := Relevant(History(s.messages));
      if |relevant| == 0 then SummaryOnly("", None)
      else
        var call := LlmCall(WithTemperature(SummaryTemperature),
          [SystemMessage(prompts.conversationSummary), HumanMessage(Conversation(SummaryWindow(relevant)))]);
        SummaryOnly(llm(call).content, Some([ResetMarker]))
  }

  /** The reset marker is emitted exactly when the model is called: at least
      four messages, and some message before the latest qualifies. */
  lemma SummarizeResetIff(s: State, llm: Llm, prompts: Prompts)
    ensures Summarize(s, llm, prompts).agentAnswers.Some? <==>
      |s.messages| >= MinMessagesForSummary
      && exists i :: 0 <= i < |s.messages| - 1 && Qualifies(s.messages[i])
  {
    var h := History(s.messages);
    if |s.messages| >= MinMessagesForSummary {
      if |Relevant(h)| > 0 {
        var m := Relevant(h)[0];
        RelevantMembership(h, m);
        var k :| 0 <= k < |h| && h[k] == m;
        assert s.messages[k] == h[k];
      }
      if exists i :: 0 <= i < |s.messages| - 1 && Qualifies(s.messages[i]) {
        var i :| 0 <= i < |s.messages| - 1 && Qualifies(s.messages[i]);
        assert h[i] == s.messages[i];
        RelevantMembership(h, s.messages[i]);
      }
    }
  }

  /** The summary never depends on the latest message. */
  lemma SummaryIgnoresLatest(s: State, latest: Message, llm: Llm, prompts: Prompts)
    requires |s.messages| > 0
    ensures Summarize(s.(messages := History(s.messages) + [latest]), llm, prompts) == Summarize(s, llm, prompts)
  {
    var t := s.(messages := History(s.messages) + [latest]);
    assert History(t.messages) == History(s.messages);
  }

  /** The transcript shows every message of the window once, in order: the
      transcript of a concatenation is the concatenation of transcripts. */
  lemma {:induction false} TranscriptAppend(a: seq<Message>, b: seq<Message>)
    ensures Transcript(a + b) == Transcript(a) + Transcript(b)
    decreases |a|
  {
    if |a| == 0 {
      assert a + b == b;
    } else {
      assert (a + b)[0] == a[0];
      assert (a + b)[1..] == a[1..] + b;
      TranscriptAppend(a[1..], b);
    }
  }

  /** Adding one qualifying message to a long history drops the oldest one
      from the summary window and adds the new one at its end. */
  lemma WindowSlides(relevant: seq<Message>, m: Message)
    requires |relevant| >= SummaryWindowSize
    ensures SummaryWindow(relevant + [m]) == SummaryWindow(relevant)[1..] + [m]
  {
  }

  // ===========================================================================
  // analyze_and_rewrite_query, human_input_node
  // ===========================================================================

  /** `analyze_and_rewrite_query` in its pass-through form: the latest
      message is both the original query and the single rewritten question,
      and the question is declared clear. The model is not called. */
  function Rewrite(s: State): (u: StateUpdate)
    requires |s.messages| > 0
    ensures Apply(s, u).messages == s.messages
    ensures Apply(s, u).questionIsClear == Some(true)
    ensures Apply(s, u).originalQuery == s.messages[|s.messages| - 1].content
    ensures Apply(s, u).rewrittenQuestions == [Apply(s, u).originalQuery]
    ensures Apply(s, u).agentAnswers == s.agentAnswers
    ensures Apply(s, u).conversationSummary == s.conversationSummary
  {
    var last := s.messages[|s.messages| - 1];
    StateUpdate([], Some(true), None, Some(last.content), Some([last.content]), None)
  }

  /** `human_input_node`: returns nothing, so the state stays as it was. */
  function HumanInput(s: State): (u: StateUpdate)
    ensures Apply(s, u) == s
  {
    NoUpdateIsIdentity(s);
    NoUpdate
  }

  // ===========================================================================
  // agent_node
  // ===========================================================================

  /** `agent_node`: on an empty scratchpad the question becomes the first
      human message and the model's answer follows it; afterwards only the
      model's next answer is added. */
  function AgentNode(s: AgentState, llmWithTools: Llm, prompts: Prompts): (u: AgentUpdate)
    ensures u.finalAnswer.None? && u.agentAnswers.None?
    ensures |s.messages| == 0 ==> |u.newMessages| == 2 && u.newMessages[0] == HumanMessage(s.question)
    ensures |s.messages| > 0 ==> |u.newMessages| == 1
  {
    var sys := SystemMessage(prompts.ragAgent);
    if |s.messages| == 0 then
      var human := HumanMessage(s.question);
      AgentUpdate([human, llmWithTools(LlmCall(WithTools, [sys, human]))], None, None)
    else
      AgentUpdate([llmWithTools(LlmCall(WithTools, [sys] + s.messages))], None, None)
  }

  /** The ReAct loop keeps its history: after the first step and whatever the
      tools append, the model is shown the system prompt, the question, its
      own first answer and the tool results, in that order. */
  lemma AgentSeesHistory(s: AgentState, llmWithTools: Llm, prompts: Prompts, toolResults: seq<Message>)
    requires s.messages == []
    ensures var first := llmWithTools(LlmCall(WithTools, [SystemMessage(prompts.ragAgent), HumanMessage(s.question)]));
      var t := ApplyAgent(ApplyAgent(s, AgentNode(s, llmWithTools, prompts)), AgentUpdate(toolResults, None, None));
      AgentNode(t, llmWithTools, prompts).newMessages
        == [llmWithTools(LlmCall(WithTools,
             [SystemMessage(prompts.ragAgent), HumanMessage(s.question), first] + toolResults))]
  {
    var first := llmWithTools(LlmCall(WithTools, [SystemMessage(prompts.ragAgent), HumanMessage(s.question)]));
    var s1 := ApplyAgent(s, AgentNode(s, llmWithTools, prompts));
    assert s1.messages == [HumanMessage(s.question), first];
    var t := ApplyAgent(s1, AgentUpdate(toolResults, None, None));
    assert [SystemMessage(prompts.ragAgent)] + t.messages
      == [SystemMessage(prompts.ragAgent), HumanMessage(s.question), first] + toolResults;
  }

  // ===========================================================================
  // extract_final_answer
  // ===========================================================================

  /** A final answer: an AI message with text and no tool call. */
  predicate IsFinal(m: Message) {
    m.AIMessage? && |m.content| > 0 && |m.toolCalls| == 0
  }

  /** Position i holds the most recent final answer of the list. */
  predicate IsLatestFinal(msgs: seq<Message>, i: int) {
    0 <= i < |msgs| && IsFinal(msgs[i]) && forall j :: i < j < |msgs| ==> !IsFinal(msgs[j])
  }

  /** `extract_final_answer`: scans the messages from the newest backwards
      and packages the first final answer it meets, or the fallback text,
      together with the task's index and question. */
  method ExtractFinalAnswer(s: AgentState) returns (u: AgentUpdate)
    ensures u.newMessages == [] && u.finalAnswer.Some? && |u.finalAnswer.value| > 0
    ensures u.agentAnswers == Some([AnswerRecord(s.questionIndex, s.question, u.finalAnswer.value)])
    ensures forall i :: IsLatestFinal(s.messages, i) ==> u.finalAnswer.value == s.messages[i].content
    ensures (forall i :: 0 <= i < |s.messages| ==> !IsFinal(s.messages[i])) ==> u.finalAnswer.value == FallbackAnswer
  {
    var k := |s.messages|;
    while k > 0
      invariant 0 <= k <= |s.messages|
      invariant forall j :: k <= j < |s.messages| ==> !IsFinal(s.messages[j])
    {
      k := k - 1;
      var msg := s.messages[k];
      if IsFinal(msg) {
        assert IsLatestFinal(s.messages, k);
        forall i | IsLatestFinal(s.messages, i)
          ensures i == k
        {
        }
        u := AgentUpdate([], Some(msg.content), Some([AnswerRecord(s.questionIndex, s.question, msg.content)]));
        return;
      }
    }
    u := AgentUpdate([], Some(FallbackAnswer), Some([AnswerRecord(s.questionIndex, s.question, FallbackAnswer)]));
  }

  // ===========================================================================
  // aggregate_responses
  // ===========================================================================

  /** `x["index"]` of an answer record. */
  function IndexOf(item: AnswerItem): int {
    match item
    case AnswerRecord(index, _, _) => index
    case ResetMarker => 0
  }

  function AnswerOf(item: AnswerItem): string {
    match item
    case AnswerRecord(_, _, answer) => answer
    case ResetMarker => ""
  }

  predicate SortedByIndex(items: seq<AnswerItem>) {
    forall i, j :: 0 <= i < j < |items| ==> IndexOf(items[i]) <= IndexOf(items[j])
  }

  predicate StrictlySortedByIndex(items: seq<AnswerItem>) {
    forall i, j :: 0 <= i < j < |items| ==> IndexOf(items[i]) < IndexOf(items[j])
  }

  /** Inserts x after every element whose index is not larger, so records
      with equal indices keep their arrival order. */
  function InsertByIndex(x: AnswerItem, sorted: seq<AnswerItem>): (r: seq<AnswerItem>)
    ensures |r| == |sorted| + 1
    ensures multiset(r) == multiset(sorted) + multiset{x}
    decreases |sorted|
  {
    if |sorted| == 0 then [x]
    else if IndexOf(sorted[0]) <= IndexOf(x) then
      assert sorted == [sorted[0]] + sorted[1..];
      [sorted[0]] + InsertByIndex(x, sorted[1..])
    else [x] + sorted
  }

  /** A lower bound on every index of the list and on the inserted record's
      index bounds every index of the result. */
  lemma {:induction false} InsertLowerBound(x: AnswerItem, sorted: seq<AnswerItem>, lo: int)
    requires forall i :: 0 <= i < |sorted| ==> lo <= IndexOf(sorted[i])
    requires lo <= IndexOf(x)
    ensures forall i :: 0 <= i < |InsertByIndex(x, sorted)| ==> lo <= IndexOf(InsertByIndex(x, sorted)[i])
    decreases |sorted|
  {
    var r := InsertByIndex(x, sorted);
    if |sorted| > 0 && IndexOf(sorted[0]) <= IndexOf(x) {
      var tail := InsertByIndex(x, sorted[1..]);
      InsertLowerBound(x, sorted[1..], lo);
      assert r == [sorted[0]] + tail;
      forall i | 0 < i < |r|
        ensures lo <= IndexOf(r[i])
      {
        assert r[i] == tail[i - 1];
      }
    }
  }

  /** The tail of a sorted list is sorted and bounded below by its head. */
  lemma SortedTail(sorted: seq<AnswerItem>)
    requires SortedByIndex(sorted) && |sorted| > 0
    ensures SortedByIndex(sorted[1..])
    ensures forall i :: 0 <= i < |sorted| - 1 ==> IndexOf(sorted[0]) <= IndexOf(sorted[1..][i])
  {
    var rest := sorted[1..];
    forall i, j | 0 <= i < j < |rest|
      ensures IndexOf(rest[i]) <= IndexOf(rest[j])
    {
      assert rest[i] == sorted[i + 1] && rest[j] == sorted[j + 1];
    }
    forall i | 0 <= i < |rest|
      ensures IndexOf(sorted[0]) <= IndexOf(rest[i])
    {
      assert rest[i] == sorted[i + 1];
    }
  }

  /** A head followed by a sorted list it bounds from below is sorted. */
  lemma ConsSorted(h: AnswerItem, tail: seq<AnswerItem>)
    requires SortedByIndex(tail)
    requires forall i :: 0 <= i < |tail| ==> IndexOf(h) <= IndexOf(tail[i])
    ensures SortedByIndex([h] + tail)
  {
    var r := [h] + tail;
    forall i, j | 0 <= i < j < |r|
      ensures IndexOf(r[i]) <= IndexOf(r[j])
    {
      assert r[j] == tail[j - 1];
      if i > 0 {
        assert r[i] == tail[i - 1];
      }
    }
  }

  /** Inserting into a sorted list keeps it sorted. */
  lemma {:induction false} InsertKeepsSorted(x: AnswerItem, sorted: seq<AnswerItem>)
    requires SortedByIndex(sorted)
    ensures SortedByIndex(InsertByIndex(x, sorted))
    decreases |sorted|
  {
    if |sorted| > 0 {
      SortedTail(sorted);
      if IndexOf(sorted[0]) <= IndexOf(x) {
        InsertKeepsSorted(x, sorted[1..]);
        InsertLowerBound(x, sorted[1..], IndexOf(sorted[0]));
        ConsSorted(sorted[0], InsertByIndex(x, sorted[1..]));
      } else {
        ConsSorted(x, sorted);
      }
    }
  }

  /** `sorted(answers, key=lambda x: x["index"])`. */
  function SortByIndex(items: seq<AnswerItem>): (r: seq<AnswerItem>)
    ensures |r| == |items|
    ensures multiset(r) == multiset(items)
    ensures SortedByIndex(r)
    decreases |items|
  {
    if |items| == 0 then []
    else
      assert items == items[..|items| - 1] + [items[|items| - 1]];
      InsertKeepsSorted(items[|items| - 1], SortByIndex(items[..|items| - 1]));
      InsertByIndex(items[|items| - 1], SortByIndex(items[..|items| - 1]))
  }

  lemma MultisetCons(s: seq<AnswerItem>)
    requires |s| > 0
    ensures multiset(s) == multiset{s[0]} + multiset(s[1..])
  {
    assert s == [s[0]] + s[1..];
  }

  /** The smallest element of a sorted list and of a strictly sorted list with
      the same elements is the same. */
  lemma SortedHeadsAgree(x: seq<AnswerItem>, y: seq<AnswerItem>)
    requires SortedByIndex(x) && StrictlySortedByIndex(y)
    requires multiset(x) == multiset(y) && |x| > 0
    ensures |y| > 0 && x[0] == y[0]
  {
    assert x[0] in multiset(y);
    var k :| 0 <= k < |y| && y[k] == x[0];
    assert y[0] in multiset(x);
    var m :| 0 <= m < |x| && x[m] == y[0];
    assert IndexOf(y[k]) <= IndexOf(y[0]);
    assert k == 0;
  }

  lemma MultisetTails(x: seq<AnswerItem>, y: seq<AnswerItem>)
    requires |x| > 0 && |y| > 0 && x[0] == y[0] && multiset(x) == multiset(y)
    ensures multiset(x[1..]) == multiset(y[1..])
  {
    MultisetCons(x);
    MultisetCons(y);
    assert multiset(x[1..]) == multiset(x) - multiset{x[0]};
    assert multiset(y[1..]) == multiset(y) - multiset{y[0]};
  }

  /** A sorted list that has the same elements as a strictly sorted one is
      that list. */
  lemma {:induction false} SortedUnique(x: seq<AnswerItem>, y: seq<AnswerItem>)
    requires SortedByIndex(x) && StrictlySortedByIndex(y)
    requires multiset(x) == multiset(y)
    ensures x == y
    decreases |x|
  {
    assert |x| == |multiset(x)| == |y|;
    if |x| > 0 {
      SortedHeadsAgree(x, y);
      MultisetTails(x, y);
      var x', y' := x[1..], y[1..];
      forall i, j | 0 <= i < j < |x'|
        ensures IndexOf(x'[i]) <= IndexOf(x'[j])
      {
        assert x'[i] == x[i + 1] && x'[j] == x[j + 1];
      }
      forall i, j | 0 <= i < j < |y'|
        ensures IndexOf(y'[i]) < IndexOf(y'[j])
      {
        assert y'[i] == y[i + 1] && y'[j] == y[j + 1];
      }
      SortedUnique(x', y');
      assert x == [x[0]] + x' && y == [y[0]] + y';
    }
  }

  /** Whatever order the records arrived in, sorting gives the same list when
      their indices are distinct. */
  lemma SortIgnoresArrivalOrder(arrived: seq<AnswerItem>, canonical: seq<AnswerItem>)
    requires StrictlySortedByIndex(canonical)
    requires multiset(arrived) == multiset(canonical)
    ensures SortByIndex(arrived) == canonical
  {
    SortedUnique(SortByIndex(arrived), canonical);
  }

  /** The block of the n-th answer: "\nAnswer n:\n<answer>\n". */
  function AnswerBlock(n: nat, answer: string): string {
    AnswerHeading + NatToString(n) + AnswerColon + answer + LineEnd
  }

  /** The formatted answers, numbered from `first` on. */
  function FormatAnswers(sorted: seq<AnswerItem>, first: nat): string
    decreases |sorted|
  {
    if |sorted| == 0 then "" else AnswerBlock(first, AnswerOf(sorted[0])) + FormatAnswers(sorted[1..], first + 1)
  }

  /** The blocks "Answer first".."Answer first+N-1" of the records, in list order. */
  function AnswerBlocks(sorted: seq<AnswerItem>, first: nat): (bs: seq<string>)
    ensures |bs| == |sorted|
    ensures forall k :: 0 <= k < |sorted| ==> bs[k] == AnswerBlock(first + k, AnswerOf(sorted[k]))
  {
    seq(|sorted|, k requires 0 <= k < |sorted| => AnswerBlock(first + k, AnswerOf(sorted[k])))
  }

  /** The formatted text is the blocks "Answer 1".."Answer N" in list order. */
  lemma {:induction false} FormatAnswersBlocks(sorted: seq<AnswerItem>, first: nat)
    ensures FormatAnswers(sorted, first) == Concat(AnswerBlocks(sorted, first))
    decreases |sorted|
  {
    if |sorted| > 0 {
      FormatAnswersBlocks(sorted[1..], first + 1);
      var blocks := AnswerBlocks(sorted, first);
      var rest := AnswerBlocks(sorted[1..], first + 1);
      assert blocks[1..] == rest;
    }
  }

  /** The human message of the aggregation call. */
  function AggregationInput(originalQuery: string, formatted: string): string {
    "Original user question: " + originalQuery + "\nRetrieved answers:" + formatted
  }

  function MessageOnly(m: Message): StateUpdate {
    StateUpdate([m], None, None, None, None, None)
  }

  /** `aggregate_responses`. Sorting reads `x["index"]` of every item, which
      a reset marker lacks: callers guarantee there is none (the reducer
      never stores one, `ReducerKeepsNoMarkers`). */
  function Aggregate(s: State, llm: Llm, prompts: Prompts): (u: StateUpdate)
    requires NoResetMarkers(s.agentAnswers)
    ensures |u.newMessages| == 1 && u.newMessages[0].AIMessage? && u.newMessages[0].toolCalls == []
    ensures u.questionIsClear.None? && u.conversationSummary.None? && u.originalQuery.None?
    ensures u.rewrittenQuestions.None? && u.agentAnswers.None?
    ensures |s.agentAnswers| == 0 ==> u.newMessages[0].content == NoAnswersMessage
  {
    if |s.agentAnswers| == 0 then MessageOnly(AIMessage(NoAnswersMessage, []))
    else
      var formatted := FormatAnswers(SortByIndex(s.agentAnswers), 1);
      var user := HumanMessage(AggregationInput(s.originalQuery, formatted));
      var response := llm(LlmCall(Plain, [SystemMessage(prompts.aggregation), user]));
      MessageOnly(AIMessage(response.content, []))
  }

  /** The model is asked about the answers sorted by index and numbered from
      1, so two states holding the same distinctly indexed records in any
      arrival order aggregate identically. */
  lemma AggregateIgnoresArrivalOrder(s: State, t: State, canonical: seq<AnswerItem>, llm: Llm, prompts: Prompts)
    requires NoResetMarkers(s.agentAnswers) && NoResetMarkers(t.agentAnswers)
    requires s.originalQuery == t.originalQuery
    requires StrictlySortedByIndex(canonical)
    requires multiset(s.agentAnswers) == multiset(canonical) && multiset(t.agentAnswers) == multiset(canonical)
    ensures Aggregate(s, llm, prompts) == Aggregate(t, llm, prompts)
  {
    SortIgnoresArrivalOrder(s.agentAnswers, canonical);
    SortIgnoresArrivalOrder(t.agentAnswers, canonical);
    assert |s.agentAnswers| == |multiset(canonical)| == |t.agentAnswers|;
  }
}
