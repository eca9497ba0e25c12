/** The conditional edge of project/rag_agent/edges.py that follows query
    rewriting: stop for the user, or fan out one subgraph run per rewritten
    question. */
module Edges {
  import opened Strings
  import opened GraphState

  const ProcessQuestionNode: string := "process_question"

  /** The initial state handed to one subgraph run. */
  datatype TaskInput = TaskInput(question: string, questionIndex: int, messages: seq<Message>)

  /** `Send(node, arg)`: schedule `node` with `arg` as its input. */
  datatype Send = Send(node: string, arg: TaskInput)

  /** What the router returns: the node name "human_input", or a list of
      sends. */
  datatype Route = ToHumanInput | Fanout(sends: seq<Send>)

  /** `state.get("questionIsClear", False)`. */
  predicate IsClear(s: State) {
    s.questionIsClear.GetOr(false)
  }

  /** `route_after_rewrite`. */
  function RouteAfterRewrite(s: State): (r: Route)
    ensures r.ToHumanInput? <==> !IsClear(s)
    ensures r.Fanout? ==> |r.sends| == |s.rewrittenQuestions|
    ensures r.Fanout? ==> forall i :: 0 <= i < |r.sends| ==>
      r.sends[i].node == ProcessQuestionNode && r.sends[i].arg.messages == []
  {
    if !IsClear(s) then ToHumanInput
    else Fanout(seq(|s.rewrittenQuestions|, i requires 0 <= i < |s.rewrittenQuestions|
      => Send(ProcessQuestionNode, TaskInput(s.rewrittenQuestions[i], i, []))))
  }

  /** The questions the tasks carry, in task order. */
  function TaskQuestions(sends: seq<Send>): (qs: seq<string>)
    ensures |qs| == |sends|
    ensures forall i :: 0 <= i < |sends| ==> qs[i] == sends[i].arg.question
  {
    seq(|sends|, i requires 0 <= i < |sends| => sends[i].arg.question)
  }

  /** Reading the questions back from the fan-out gives the rewritten
      questions, in order, and each task's ordinal is its position, so the
      ordinals are 0..N-1 and pairwise distinct. */
  lemma FanoutCarriesQuestions(s: State)
    requires IsClear(s)
    ensures RouteAfterRewrite(s).Fanout?
    ensures TaskQuestions(RouteAfterRewrite(s).sends) == s.rewrittenQuestions
    ensures forall i :: 0 <= i < |s.rewrittenQuestions| ==>
      RouteAfterRewrite(s).sends[i].arg.questionIndex == i
  {
  }

  /** A missing or false flag stops for the user, whatever else the state
      holds; a clear state with no questions schedules nothing. */
  lemma RouteEdgeCases(s: State)
    ensures s.questionIsClear.None? ==> RouteAfterRewrite(s) == ToHumanInput
    ensures s.questionIsClear == Some(false) ==> RouteAfterRewrite(s) == ToHumanInput
    ensures IsClear(s) && |s.rewrittenQuestions| == 0 ==> RouteAfterRewrite(s) == Fanout([])
  {
  }
}
