/** The step numbering of a deploy run in the sandbox, as one plan, and what the pipeline
    graph makes of a run that has followed it so far. */
module DeployPlan {
  import opened Wrappers
  import opened Sets
  import opened Recorder
  import opened PipelineGraph
  import Steps

  const BUILT_IN: nat := 9

  /** The name step `i` is announced under, for a repository that declares `stages`. */
  function StepName(stages: seq<string>, i: nat): string
    requires 1 <= i <= BUILT_IN + |stages|
  {
    if i <= Steps.FIXED_PREFIX then Steps.DEPLOY[i - 1]
    else if i <= Steps.FIXED_PREFIX + |stages| then stages[i - 1 - Steps.FIXED_PREFIX]
    else Steps.DEPLOY[i - 1 - |stages|]
  }

  /** The total is provisional until the repository's stages have been read. */
  function StepTotal(stages: seq<string>, i: nat): nat {
    if i <= Steps.FIXED_PREFIX then BUILT_IN else BUILT_IN + |stages|
  }

  predicate IsPlanned(call: Event, stages: seq<string>, i: nat)
    requires 1 <= i <= BUILT_IN + |stages|
  {
    call.StepCall? && call.index == i && call.total == StepTotal(stages, i) && call.name == StepName(stages, i)
  }

  /** Every call made is the next one of the plan, from its first step on and without a gap.
      A history follows the plan only if all its earlier moments did. */
  predicate FollowsPlan(events: History<Event>, stages: seq<string>) {
    match events
    case Start => true
    case Then(earlier, e) =>
      && FollowsPlan(earlier, stages)
      && (e.StepCall? || e.Mark? ==> !IsOver(earlier))
      && (e.Mark? ==> IsMarkTerminal(e.outcome))
      && (e.StepCall? ==>
            && CallCount(earlier) < BUILT_IN + |stages|
            && IsPlanned(e, stages, CallCount(earlier) + 1))
  }

  lemma {:induction false} PlanIsDisciplined(events: History<Event>, stages: seq<string>)
    requires FollowsPlan(events, stages)
    ensures Disciplined(events)
    ensures LastIndex(events) == CallCount(events) <= BUILT_IN + |stages|
  {
    hide StepName;
    match events
    case Start =>
    case Then(earlier, e) => PlanIsDisciplined(earlier, stages);
  }

  /** The first steps are the same for every repository. */
  lemma {:induction false} PlanPrefixIsShared(events: History<Event>, stages: seq<string>)
    requires FollowsPlan(events, []) && CallCount(events) <= Steps.FIXED_PREFIX
    ensures FollowsPlan(events, stages)
  {
    match events
    case Start =>
    case Then(earlier, e) => PlanPrefixIsShared(earlier, stages);
  }

  ghost function PlanShown(stages: seq<string>, m: nat): map<nat, (nat, string)>
    requires m <= BUILT_IN + |stages|
  {
    map i | 1 <= i <= m :: (StepTotal(stages, i), StepName(stages, i))
  }

  lemma {:induction false} PlanAnnounces(events: History<Event>, stages: seq<string>)
    requires FollowsPlan(events, stages)
    ensures CallCount(events) <= BUILT_IN + |stages|
    ensures Announced(events) == PlanShown(stages, CallCount(events))
  {
    hide StepName, StepTotal;
    match events
    case Start =>
      assert PlanShown(stages, 0) == map[];
    case Then(earlier, e) =>
      PlanAnnounces(earlier, stages);
      if e.StepCall? {
        var m := CallCount(events);
        assert PlanShown(stages, m) == PlanShown(stages, m - 1)[m := (StepTotal(stages, m), StepName(stages, m))];
      }
  }

  lemma PlanTotal(stages: seq<string>, m: nat)
    requires 1 <= m <= BUILT_IN + |stages|
    ensures PlanShown(stages, m).Keys != {}
    ensures DeclaredTotal(PlanShown(stages, m)) ==
            if m <= Steps.FIXED_PREFIX then BUILT_IN else BUILT_IN + |stages|
  {
    var shown := PlanShown(stages, m);
    assert 1 in shown && m in shown;
    assert shown[m].0 in Totals(shown);
    assert forall t :: t in Totals(shown) ==> t <= StepTotal(stages, m);
    assert IsMax(Totals(shown), StepTotal(stages, m));
  }

  /** The labels of a graph that already knows the whole run after `m` of its steps: the name
      each step has or will be announced under, and a placeholder at exactly the positions of
      the repository's own stages that are still to come. */
  ghost predicate IsPredicted(nodes: seq<Node>, stages: seq<string>, m: nat) {
    && |nodes| == BUILT_IN + |stages|
    && forall i :: 1 <= i <= |nodes| ==> IsPredictedAt(nodes, stages, m, i)
  }

  predicate IsPredictedAt(nodes: seq<Node>, stages: seq<string>, m: nat, i: nat)
    requires 1 <= i <= |nodes| == BUILT_IN + |stages|
  {
    nodes[i - 1].name ==
    if m < i && Steps.FIXED_PREFIX < i <= Steps.FIXED_PREFIX + |stages| then Placeholder(i, BUILT_IN + |stages|)
    else StepName(stages, i)
  }

  /** The graph predicts the run: once a step carries the full total, every built-in step that
      has not started is already labelled with the name it will be announced under. */
  lemma GraphPredictsDeploy(
      nodes: seq<Node>, job: JobStatus, rows: Rows, stages: seq<string>, m: nat)
    requires 1 <= m <= BUILT_IN + |stages|
    requires m > Steps.FIXED_PREFIX || stages == []
    requires rows.Keys != {} && Shown(rows) == PlanShown(stages, m)
    requires IsRowGraph(nodes, job, rows, Steps.DEPLOY)
    ensures IsPredicted(nodes, stages, m)
  {
    hide IsChain, Placeholder;
    PlanTotal(stages, m);
    forall i | 1 <= i <= |nodes|
      ensures IsPredictedAt(nodes, stages, m, i)
    {
      assert IsRowNode(nodes[i - 1], i, job, rows, Steps.DEPLOY);
      PredictedLabel(stages, m, i);
    }
  }

  lemma PredictedLabel(stages: seq<string>, m: nat, i: nat)
    requires 1 <= m <= BUILT_IN + |stages| && 1 <= i <= BUILT_IN + |stages|
    ensures LabelOf(PlanShown(stages, m), BUILT_IN + |stages|, Steps.DEPLOY, i) ==
            if m < i && Steps.FIXED_PREFIX < i <= Steps.FIXED_PREFIX + |stages| then Placeholder(i, BUILT_IN + |stages|)
            else StepName(stages, i)
  {
    hide Placeholder;
  }

  /** Until then the graph shows the nine built-in steps, of which the fixed prefix is right
      for every repository. */
  lemma GraphBeforeTotalIsKnown(
      nodes: seq<Node>, job: JobStatus, rows: Rows, stages: seq<string>, m: nat)
    requires 1 <= m <= Steps.FIXED_PREFIX
    requires rows.Keys != {} && Shown(rows) == PlanShown(stages, m)
    requires IsRowGraph(nodes, job, rows, Steps.DEPLOY)
    ensures |nodes| == BUILT_IN
    ensures forall i :: 0 <= i < BUILT_IN ==> nodes[i].name == Steps.DEPLOY[i]
    ensures forall i :: 1 <= i <= Steps.FIXED_PREFIX ==> nodes[i - 1].name == StepName(stages, i)
  {
    PlanTotal(stages, m);
    forall i | 0 <= i < BUILT_IN
      ensures nodes[i].name == Steps.DEPLOY[i]
    {
      assert IsRowNode(nodes[i], i + 1, job, rows, Steps.DEPLOY);
    }
  }

  /** The prediction, stated of a whole run: any run that has followed the plan this far, at
      any of its moments, has linear rows, and its graph is labelled as the rest will be. */
  lemma RunningDeployIsPredicted(
      nodes: seq<Node>, status: JobStatus, events: History<Event>, scrub: string -> string, stages: seq<string>)
    requires FollowsPlan(events, stages) && !IsOver(events) && CallCount(events) >= 1
    requires CallCount(events) > Steps.FIXED_PREFIX || stages == []
    ensures CallCount(events) <= BUILT_IN + |stages|
    ensures var r := Run(Fresh(status), events, scrub);
            && r.Stored?
            && Linear(r.state.rows, CallCount(events))
            && r.state.rows.Keys != {}
            && (IsRowGraph(nodes, r.state.status, r.state.rows, Steps.DEPLOY) ==>
                  IsPredicted(nodes, stages, CallCount(events)))
  {
    hide IsRowGraph, IsPredicted, StepName;
    PlanIsDisciplined(events, stages);
    DisciplinedRunShape(Fresh(status), events, scrub);
    RowsShowAnnounced(Fresh(status), events, scrub);
    PlanAnnounces(events, stages);
    var s := Run(Fresh(status), events, scrub).state;
    assert 1 in s.rows;
    if IsRowGraph(nodes, s.status, s.rows, Steps.DEPLOY) {
      GraphPredictsDeploy(nodes, s.status, s.rows, stages, CallCount(events));
    }
  }
}
