/** The wiring of project/rag_agent/graph.py: the main graph, the agent
    subgraph that runs once per rewritten question, and the pause that is
    configured before `human_input`. Nodes are an enumeration, and the edges
    are a successor function. A node's successor can depend on the router's
    answer (main graph) or on `tools_condition` (subgraph). */
module Graph {
  import opened Strings
  import opened GraphState
  import opened Edges

  // ===========================================================================
  // Main graph
  // ===========================================================================

  datatype MainNode = Start | Summarize | AnalyzeRewrite | HumanInput | ProcessQuestion | Aggregate | End

  /** The node after `n`. The router's answer decides the step after
      `analyze_rewrite`: "human_input", or the `process_question` runs it
      sends, of which there may be none. */
  function NextNode(n: MainNode, route: Route): Option<MainNode> {
    match n
    case Start => Some(Summarize)
    case Summarize => Some(AnalyzeRewrite)
    case AnalyzeRewrite =>
      (match route
       case ToHumanInput => Some(HumanInput)
       case Fanout(sends) => if |sends| == 0 then None else Some(ProcessQuestion))
    case HumanInput => Some(AnalyzeRewrite)
    case ProcessQuestion => Some(Aggregate)
    case Aggregate => Some(End)
    case End => None
  }

  /** A walk through the main graph from START, `routes[i]` being the
      router's answer when step i leaves `analyze_rewrite`. */
  predicate IsMainPath(p: seq<MainNode>, routes: seq<Route>) {
    && |p| >= 1 && |routes| == |p| - 1 && p[0] == Start
    && forall i :: 0 <= i < |p| - 1 ==> NextNode(p[i], routes[i]) == Some(p[i + 1])
  }

  /** Every run starts with summarize and then analyze_rewrite. */
  lemma MainPathPrefix(p: seq<MainNode>, routes: seq<Route>)
    requires IsMainPath(p, routes)
    ensures |p| > 1 ==> p[1] == Summarize
    ensures |p| > 2 ==> p[2] == AnalyzeRewrite
  {
    if |p| > 1 {
      assert NextNode(p[0], routes[0]) == Some(p[1]);
    }
    if |p| > 2 {
      assert NextNode(p[1], routes[1]) == Some(p[2]);
    }
  }

  /** human_input is entered only from analyze_rewrite on the router's
      "human_input" answer, and always leads back to analyze_rewrite. */
  lemma HumanInputOnlyViaRouter(p: seq<MainNode>, routes: seq<Route>, i: int)
    requires IsMainPath(p, routes)
    requires 0 <= i < |p| && p[i] == HumanInput
    ensures i > 0 && p[i - 1] == AnalyzeRewrite && routes[i - 1] == ToHumanInput
    ensures i + 1 < |p| ==> p[i + 1] == AnalyzeRewrite
  {
    if i > 0 {
      assert NextNode(p[i - 1], routes[i - 1]) == Some(HumanInput);
    }
    if i + 1 < |p| {
      assert NextNode(p[i], routes[i]) == Some(p[i + 1]);
    }
  }

  /** END is reached only from aggregate, which itself follows
      process_question, and nothing follows END. */
  lemma EndOnlyAfterAggregate(p: seq<MainNode>, routes: seq<Route>, i: int)
    requires IsMainPath(p, routes)
    requires 0 <= i < |p| && p[i] == End
    ensures i == |p| - 1
    ensures i >= 2 && p[i - 1] == Aggregate && p[i - 2] == ProcessQuestion
  {
    forall j | 0 <= j < |p| - 1
      ensures p[j] != End
    {
      assert NextNode(p[j], routes[j]) == Some(p[j + 1]);
    }
    assert NextNode(p[i - 1], routes[i - 1]) == Some(End);
    assert NextNode(p[i - 2], routes[i - 2]) == Some(Aggregate);
  }

  // ---------------------------------------------------------------------------
  // Execution with the pause before human_input
  // ---------------------------------------------------------------------------

  /** The nodes the compiled graph pauses in front of. */
  const InterruptBefore: set<MainNode> := {HumanInput}

  /** Where a run stands: about to run a node, paused in front of one, or
      finished. */
  datatype Status = Running(at: MainNode) | Paused(before: MainNode) | Finished

  /** Runs the current node and moves on: to the next node, to a pause in
      front of it, or to the end. */
  function Step(st: Status, route: Route): Status {
    match st
    case Running(n) =>
      (match NextNode(n, route)
       case None => Finished
       case Some(m) => if m == End then Finished else if m in InterruptBefore then Paused(m) else Running(m))
    case Paused(_) => st
    case Finished => st
  }

  /** The user's next invocation continues a paused run at the node it paused
      in front of. */
  function Resume(st: Status): Status {
    match st
    case Paused(m) => Running(m)
    case _ => st
  }

  /** A step never goes straight into human_input: it pauses first, and a
      pause arises only there, after the router's "human_input" answer. */
  lemma PausesBeforeHumanInput(n: MainNode, route: Route)
    ensures Step(Running(n), route) != Running(HumanInput)
    ensures Step(Running(n), route).Paused? <==> n == AnalyzeRewrite && route == ToHumanInput
    ensures Step(Running(n), route).Paused? ==> Step(Running(n), route).before == HumanInput
  {
  }

  /** Several steps, one router answer per step. */
  function Run(st: Status, routes: seq<Route>): Status
    decreases |routes|
  {
    if |routes| == 0 then st else Run(Step(st, routes[0]), routes[1..])
  }

  /** A paused or finished run stays where it is until it is resumed. */
  lemma {:induction false} RunStopsWhenNotRunning(st: Status, routes: seq<Route>)
    requires !st.Running?
    ensures Run(st, routes) == st
    decreases |routes|
  {
    if |routes| > 0 {
      RunStopsWhenNotRunning(Step(st, routes[0]), routes[1..]);
    }
  }

  /** An unclear question pauses the run in front of human_input after
      summarize and analyze_rewrite; resuming it returns to analyze_rewrite. */
  lemma UnclearQuestionPauses(s: State, r0: Route, r1: Route, later: seq<Route>)
    requires !IsClear(s)
    ensures Run(Running(Start), [r0, r1, RouteAfterRewrite(s)] + later) == Paused(HumanInput)
    ensures Step(Resume(Paused(HumanInput)), r0) == Running(AnalyzeRewrite)
  {
    var route := RouteAfterRewrite(s);
    var routes := [r0, r1, route] + later;
    assert routes[1..] == [r1, route] + later;
    assert routes[1..][1..] == [route] + later;
    assert routes[1..][1..][1..] == later;
    calc {
      Run(Running(Start), routes);
      Run(Running(Summarize), [r1, route] + later);
      Run(Running(AnalyzeRewrite), [route] + later);
      Run(Paused(HumanInput), later);
      { RunStopsWhenNotRunning(Paused(HumanInput), later); }
      Paused(HumanInput);
    }
  }

  /** A clear question with at least one rewritten question runs through
      process_question and aggregate to the end in five steps. */
  lemma ClearQuestionFinishes(s: State, r0: Route, r1: Route, r3: Route, r4: Route)
    requires IsClear(s) && |s.rewrittenQuestions| > 0
    ensures Run(Running(Start), [r0, r1, RouteAfterRewrite(s)]) == Running(ProcessQuestion)
    ensures Run(Running(Start), [r0, r1, RouteAfterRewrite(s), r3, r4]) == Finished
  {
    var route := RouteAfterRewrite(s);
    assert Step(Running(AnalyzeRewrite), route) == Running(ProcessQuestion);
    calc {
      Run(Running(Start), [r0, r1, route]);
      { assert [r0, r1, route][1..] == [r1, route]; }
      Run(Running(Summarize), [r1, route]);
      { assert [r1, route][1..] == [route]; }
      Run(Running(AnalyzeRewrite), [route]);
      Run(Running(ProcessQuestion), []);
    }
    calc {
      Run(Running(Start), [r0, r1, route, r3, r4]);
      { assert [r0, r1, route, r3, r4][1..] == [r1, route, r3, r4]; }
      Run(Running(Summarize), [r1, route, r3, r4]);
      { assert [r1, route, r3, r4][1..] == [route, r3, r4]; }
      Run(Running(AnalyzeRewrite), [route, r3, r4]);
      { assert [route, r3, r4][1..] == [r3, r4]; }
      Run(Running(ProcessQuestion), [r3, r4]);
      { assert [r3, r4][1..] == [r4]; }
      Run(Running(Aggregate), [r4]);
      Run(Finished, []);
    }
  }

  /** A clear state with no rewritten question schedules no run: the graph
      finishes right after analyze_rewrite and aggregate never runs. */
  lemma EmptyFanoutFinishesEarly(s: State)
    requires IsClear(s) && |s.rewrittenQuestions| == 0
    ensures Step(Running(AnalyzeRewrite), RouteAfterRewrite(s)) == Finished
  {
  }

  // ===========================================================================
  // Agent subgraph
  // ===========================================================================

  datatype SubNode = SubStart | Agent | Tools | ExtractAnswer | SubEnd

  /** The subgraph's edges. `wantsTools` is what `tools_condition` reports
      about the agent's latest message. */
  function SubNext(n: SubNode, wantsTools: bool): Option<SubNode> {
    match n
    case SubStart => Some(Agent)
    case Agent => if wantsTools then Some(Tools) else Some(ExtractAnswer)
    case Tools => Some(Agent)
    case ExtractAnswer => Some(SubEnd)
    case SubEnd => None
  }

  predicate IsSubPath(p: seq<SubNode>, wants: seq<bool>) {
    && |p| >= 1 && |wants| == |p| - 1 && p[0] == SubStart
    && forall i :: 0 <= i < |p| - 1 ==> SubNext(p[i], wants[i]) == Some(p[i + 1])
  }

  /** A finished subgraph run began with agent and ended with extract_answer,
      which ran exactly once; every tools step sat between two agent steps. */
  lemma SubPathShape(p: seq<SubNode>, wants: seq<bool>)
    requires IsSubPath(p, wants) && p[|p| - 1] == SubEnd
    ensures |p| >= 4 && p[1] == Agent
    ensures p[|p| - 2] == ExtractAnswer && p[|p| - 3] == Agent
    ensures forall i :: 0 <= i < |p| - 2 ==> p[i] != ExtractAnswer && p[i] != SubEnd
    ensures forall i :: 0 <= i < |p| && p[i] == Tools ==> 0 < i < |p| - 1 && p[i - 1] == Agent && p[i + 1] == Agent
  {
    assert p[0] != SubEnd;
    assert SubNext(p[0], wants[0]) == Some(p[1]);
    assert SubNext(p[|p| - 2], wants[|p| - 2]) == Some(SubEnd);
    assert SubNext(p[|p| - 3], wants[|p| - 3]) == Some(ExtractAnswer);
    forall i | 0 <= i < |p| - 2
      ensures p[i] != ExtractAnswer && p[i] != SubEnd
    {
      assert SubNext(p[i], wants[i]) == Some(p[i + 1]);
      assert SubNext(p[i + 1], wants[i + 1]) == Some(p[i + 2]);
    }
    forall i | 0 <= i < |p| && p[i] == Tools
      ensures 0 < i < |p| - 1 && p[i - 1] == Agent && p[i + 1] == Agent
    {
      assert SubNext(p[i - 1], wants[i - 1]) == Some(Tools);
      assert SubNext(p[i], wants[i]) == Some(p[i + 1]);
    }
  }

  /** The run with k tool rounds: agent, then k times tools and agent, then
      extract_answer. */
  function ToolRounds(k: nat): (p: seq<SubNode>)
    ensures |p| == 2 * k
    decreases k
  {
    if k == 0 then [] else [Tools, Agent] + ToolRounds(k - 1)
  }

  function SubRun(k: nat): seq<SubNode> {
    [SubStart, Agent] + ToolRounds(k) + [ExtractAnswer, SubEnd]
  }

  /** k tool calls followed by an answer without tool calls */
  function Decisions(k: nat): seq<bool> {
    seq(2 * k + 3, i requires 0 <= i < 2 * k + 3 => i % 2 == 1 && i < 2 * k + 1)
  }

  /** ToolRounds(k) alternates tools and agent. */
  lemma {:induction false} ToolRoundsAt(k: nat, i: int)
    requires 0 <= i < 2 * k
    ensures ToolRounds(k)[i] == if i % 2 == 0 then Tools else Agent
    decreases k
  {
    if i >= 2 {
      ToolRoundsAt(k - 1, i - 2);
    }
  }

  /** For every k, the subgraph can loop through the tools k times before
      answering: SubRun(k) is a walk of the subgraph. */
  lemma SubRunIsPath(k: nat)
    ensures IsSubPath(SubRun(k), Decisions(k))
  {
    var p := SubRun(k);
    var w := Decisions(k);
    forall i | 0 <= i < |p| - 1
      ensures SubNext(p[i], w[i]) == Some(p[i + 1])
    {
      if 2 <= i < 2 * k + 2 {
        assert p[i] == ToolRounds(k)[i - 2];
        ToolRoundsAt(k, i - 2);
      }
      if 1 <= i < 2 * k + 1 {
        assert p[i + 1] == ToolRounds(k)[i - 1];
        ToolRoundsAt(k, i - 1);
      }
    }
  }
}
