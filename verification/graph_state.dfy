/** The state records of project/rag_agent/graph_state.py and the reducer
    that merges parallel writes to the answers list. */
module GraphState {
  import opened Strings

  /** A tool call an AI message asks for. */
  datatype ToolCall = ToolCall(name: string, args: string, id: string)

  /** The chat messages the graph passes around. Only AI messages carry tool
      calls; for every other kind `tool_calls` is absent. */
  datatype Message =
    | HumanMessage(content: string)
    | AIMessage(content: string, toolCalls: seq<ToolCall>)
    | SystemMessage(content: string)
    | ToolMessage(content: string, toolCallId: string)

  /** An element of `agent_answers`: the marker `{"__reset__": True}` or an
      answer record `{"index", "question", "answer"}`. */
  datatype AnswerItem =
    | ResetMarker
    | AnswerRecord(index: int, question: string, answer: string)

  /** `any(item.get('__reset__') for item in items)`. */
  predicate HasReset(items: seq<AnswerItem>) {
    exists i :: 0 <= i < |items| && items[i].ResetMarker?
  }

  /** The reducer `accumulate_or_reset`: a batch holding a reset marker empties
      the list, any other batch is appended. */
  function AccumulateOrReset(existing: seq<AnswerItem>, incoming: seq<AnswerItem>): (r: seq<AnswerItem>)
    ensures HasReset(incoming) ==> r == []
    ensures !HasReset(incoming) ==> r == existing + incoming && |r| == |existing| + |incoming|
  {
    if |incoming| > 0 && HasReset(incoming) then [] else existing + incoming
  }

  /** Two reset-free writes compose into one: nothing written by one parallel
      branch is overwritten by another. */
  lemma ResetFreeWritesCompose(existing: seq<AnswerItem>, a: seq<AnswerItem>, b: seq<AnswerItem>)
    requires !HasReset(a) && !HasReset(b)
    ensures AccumulateOrReset(AccumulateOrReset(existing, a), b) == existing + a + b
    ensures AccumulateOrReset(AccumulateOrReset(existing, a), b) == AccumulateOrReset(existing, a + b)
  {
    assert !HasReset(a + b) by {
      forall i | 0 <= i < |a + b|
        ensures !(a + b)[i].ResetMarker?
      {
        if i < |a| {
          assert (a + b)[i] == a[i];
        } else {
          assert (a + b)[i] == b[i - |a|];
        }
      }
    }
    assert existing + a + b == existing + (a + b);
  }

  /** A reset batch discards the records that arrive with it as well. */
  lemma ResetBatchDiscardsItsRecords(existing: seq<AnswerItem>, before: seq<AnswerItem>, after: seq<AnswerItem>)
    ensures AccumulateOrReset(existing, before + [ResetMarker] + after) == []
  {
    assert (before + [ResetMarker] + after)[|before|] == ResetMarker;
  }

  /** No stored answer is ever a reset marker: the reducer keeps that
      invariant for every batch. */
  predicate NoResetMarkers(items: seq<AnswerItem>) {
    forall i :: 0 <= i < |items| ==> items[i].AnswerRecord?
  }

  lemma ReducerKeepsNoMarkers(existing: seq<AnswerItem>, incoming: seq<AnswerItem>)
    requires NoResetMarkers(existing)
    ensures NoResetMarkers(AccumulateOrReset(existing, incoming))
  {
    if !HasReset(incoming) {
      var r := existing + incoming;
      forall i | 0 <= i < |r|
        ensures r[i].AnswerRecord?
      {
        if i >= |existing| {
          assert r[i] == incoming[i - |existing|];
        }
      }
    }
  }

  /** All items of a list of batches, in order. */
  function Flatten(batches: seq<seq<AnswerItem>>): seq<AnswerItem>
    decreases |batches|
  {
    if |batches| == 0 then [] else batches[0] + Flatten(batches[1..])
  }

  /** The reducer applied to a list of writes, one after another. */
  function ApplyWrites(existing: seq<AnswerItem>, batches: seq<seq<AnswerItem>>): seq<AnswerItem>
    decreases |batches|
  {
    if |batches| == 0 then existing else ApplyWrites(AccumulateOrReset(existing, batches[0]), batches[1..])
  }

  /** The index just after the last batch that resets, or 0 when none does. */
  function AfterLastReset(batches: seq<seq<AnswerItem>>): (k: nat)
    ensures k <= |batches|
    ensures k > 0 ==> HasReset(batches[k - 1])
    ensures forall j :: k <= j < |batches| ==> !HasReset(batches[j])
    decreases |batches|
  {
    if |batches| == 0 then 0
    else if HasReset(batches[|batches| - 1]) then |batches|
    else AfterLastReset(batches[..|batches| - 1])
  }

  /** The reducer's meaning over a whole sequence of writes: the answers are
      exactly the records written after the last reset, in arrival order, on
      top of the initial list when no write resets. */
  lemma {:induction false} ApplyWritesSpec(existing: seq<AnswerItem>, batches: seq<seq<AnswerItem>>)
    ensures var k := AfterLastReset(batches);
      ApplyWrites(existing, batches) == (if k == 0 then existing else []) + Flatten(batches[k..])
    decreases |batches|
  {
    if |batches| > 0 {
      var b0 := batches[0];
      var rest := batches[1..];
      var s1 := AccumulateOrReset(existing, b0);
      ApplyWritesSpec(s1, rest);
      var kr := AfterLastReset(rest);
      var k := AfterLastReset(batches);
      AfterLastResetShift(batches);
      if kr > 0 {
        assert k == kr + 1;
        assert batches[k..] == rest[kr..];
      } else if HasReset(b0) {
        assert k == 1;
        assert batches[1..] == rest;
        assert s1 == [];
      } else {
        assert k == 0;
        assert batches[0..] == batches;
        assert Flatten(batches) == b0 + Flatten(rest);
        assert rest[0..] == rest;
        assert existing + b0 + Flatten(rest) == existing + (b0 + Flatten(rest));
      }
    }
  }

  /** How AfterLastReset of a list relates to that of its tail. */
  lemma {:induction false} AfterLastResetShift(batches: seq<seq<AnswerItem>>)
    requires |batches| > 0
    ensures var kr := AfterLastReset(batches[1..]);
      AfterLastReset(batches) == (if kr > 0 then kr + 1 else if HasReset(batches[0]) then 1 else 0)
    decreases |batches|
  {
    var n := |batches|;
    if n > 1 && !HasReset(batches[n - 1]) {
      var init := batches[..n - 1];
      AfterLastResetShift(init);
      assert init[1..] == batches[1..][..n - 2];
      assert init[0] == batches[0];
    } else if n == 1 {
      assert batches[1..] == [];
    }
  }

  // ===========================================================================
  // State records and updates
  // ===========================================================================

  /** The main graph's state. `questionIsClear` may be missing (None). */
  datatype State = State(
    messages: seq<Message>,
    questionIsClear: Option<bool>,
    conversationSummary: string,
    originalQuery: string,
    rewrittenQuestions: seq<string>,
    agentAnswers: seq<AnswerItem>)

  /** The partial dict a main-graph node returns: a None field is a key the
      node does not return. Messages are always appended. */
  datatype StateUpdate = StateUpdate(
    newMessages: seq<Message>,
    questionIsClear: Option<bool>,
    conversationSummary: Option<string>,
    originalQuery: Option<string>,
    rewrittenQuestions: Option<seq<string>>,
    agentAnswers: Option<seq<AnswerItem>>)

  const NoUpdate: StateUpdate := StateUpdate([], None, None, None, None, None)

  function Overwrite<T>(current: T, update: Option<T>): T {
    match update
    case Some(v) => v
    case None => current
  }

  /** Merging a node's return into the state: messages appended, answers
      through the reducer, every other returned key overwritten. */
  function Apply(s: State, u: StateUpdate): (t: State)
    ensures |s.messages| <= |t.messages| && t.messages[..|s.messages|] == s.messages
    ensures t.messages[|s.messages|..] == u.newMessages
    ensures u.agentAnswers.None? ==> t.agentAnswers == s.agentAnswers
  {
    var answers := match u.agentAnswers
      case Some(batch) => AccumulateOrReset(s.agentAnswers, batch)
      case None => s.agentAnswers;
    State(
      s.messages + u.newMessages,
      if u.questionIsClear.Some? then u.questionIsClear else s.questionIsClear,
      Overwrite(s.conversationSummary, u.conversationSummary),
      Overwrite(s.originalQuery, u.originalQuery),
      Overwrite(s.rewrittenQuestions, u.rewrittenQuestions),
      answers)
  }

  /** No node's return can leave a reset marker in the answers list. */
  lemma ApplyKeepsNoMarkers(s: State, u: StateUpdate)
    requires NoResetMarkers(s.agentAnswers)
    ensures NoResetMarkers(Apply(s, u).agentAnswers)
  {
    if u.agentAnswers.Some? {
      ReducerKeepsNoMarkers(s.agentAnswers, u.agentAnswers.value);
    }
  }

  /** Returning `{}` changes nothing. */
  lemma NoUpdateIsIdentity(s: State)
    ensures Apply(s, NoUpdate) == s
  {
    assert s.messages + [] == s.messages;
  }

  /** The state of one agent subgraph. `agent_answers` has no reducer here. */
  datatype AgentState = AgentState(
    messages: seq<Message>,
    question: string,
    questionIndex: int,
    finalAnswer: string,
    agentAnswers: seq<AnswerItem>)

  datatype AgentUpdate = AgentUpdate(
    newMessages: seq<Message>,
    finalAnswer: Option<string>,
    agentAnswers: Option<seq<AnswerItem>>)

  function ApplyAgent(s: AgentState, u: AgentUpdate): (t: AgentState)
    ensures |s.messages| <= |t.messages| && t.messages[..|s.messages|] == s.messages
    ensures t.messages[|s.messages|..] == u.newMessages
    ensures t.question == s.question && t.questionIndex == s.questionIndex
  {
    AgentState(
      s.messages + u.newMessages,
      s.question,
      s.questionIndex,
      Overwrite(s.finalAnswer, u.finalAnswer),
      Overwrite(s.agentAnswers, u.agentAnswers))
  }
}
