/** How long the pipeline graph of a deploy is at each moment, and what it shows of a deploy that is
    over, on either path. */
module FinishedDeploy {
  import opened Wrappers
  import opened Sets
  import opened Recorder
  import opened PipelineGraph
  import DeployPlan
  import DeployTask
  import Steps
  import GraphTheorems
  import Tekton = TektonPoller

  /** Every step is announced with the full total, but for the ones that come before the
      repository's own stages are known. */
  lemma {:induction false} AnnouncedTotals(events: History<Event>, tekton: bool, stages: seq<string>, i: nat)
    requires DeployTask.Follows(events, tekton, stages) && i in Announced(events)
    ensures Announced(events)[i].0 == 9 + |stages| || (Announced(events)[i].0 == 9 && i <= Steps.FIXED_PREFIX)
  {
    hide DeployPlan.StepName, Tekton.AnnouncedAs;
    match events
    case Then(earlier, e) =>
      if i in Announced(earlier) {
        AnnouncedTotals(earlier, tekton, stages, i);
      }
  }

  /** A row of the last step settles how long the graph is. */
  lemma TotalIsKnown(rows: Rows, events: History<Event>, tekton: bool, stages: seq<string>)
    requires DeployTask.Follows(events, tekton, stages) && Shown(rows) == Announced(events)
    requires 9 + |stages| in rows
    ensures rows.Keys != {} && RowsTotal(rows) == 9 + |stages|
  {
    hide DeployTask.Follows;
    var n := 9 + |stages|;
    assert n in Shown(rows) && Shown(rows).Keys == rows.Keys;
    forall i | i in rows
      ensures Shown(rows)[i].0 <= n
    {
      assert i in Announced(events);
      AnnouncedTotals(events, tekton, stages, i);
    }
    AnnouncedTotals(events, tekton, stages, n);
    assert Shown(rows)[n].0 in Totals(Shown(rows));
    assert IsMax(Totals(Shown(rows)), n);
  }

  /** The repository's stages have not been counted into the total yet. */
  predicate IsTotalProvisional(events: History<Event>, tekton: bool) {
    CallCount(events) <= if tekton then 1 else Steps.FIXED_PREFIX
  }

  function TotalNow(events: History<Event>, tekton: bool, stages: seq<string>): nat {
    if IsTotalProvisional(events, tekton) then 9 else 9 + |stages|
  }

  lemma {:induction false} LastTotalIsLargest(events: History<Event>, tekton: bool, stages: seq<string>)
    requires DeployTask.Follows(events, tekton, stages) && CallCount(events) >= 1
    ensures LastIndex(events) in Announced(events)
    ensures Announced(events)[LastIndex(events)].0 == TotalNow(events, tekton, stages)
    ensures forall i :: i in Announced(events) ==> Announced(events)[i].0 <= TotalNow(events, tekton, stages)
  {
    hide DeployPlan.StepName, Tekton.AnnouncedAs;
    match events
    case Then(earlier, e) =>
      if CallCount(earlier) >= 1 {
        LastTotalIsLargest(earlier, tekton, stages);
      } else {
        DeployTask.NothingAnnounced(earlier);
      }
  }

  /** The largest total announced so far is nine until the stages are known, and then all of it. */
  lemma TotalSoFar(events: History<Event>, tekton: bool, stages: seq<string>)
    requires DeployTask.Follows(events, tekton, stages) && CallCount(events) >= 1
    ensures Announced(events).Keys != {} && DeclaredTotal(Announced(events)) == TotalNow(events, tekton, stages)
  {
    hide DeployTask.Follows, TotalNow;
    LastTotalIsLargest(events, tekton, stages);
    var t := TotalNow(events, tekton, stages);
    assert Announced(events)[LastIndex(events)].0 in Totals(Announced(events));
    assert IsMax(Totals(Announced(events)), t);
  }

  /** A deploy that succeeded shows every one of its steps, and every one as succeeded. */
  lemma SucceededDeployIsGreen(
      nodes: seq<Node>, origin: JobState, events: History<Event>, scrub: string -> string, tekton: bool, stages: seq<string>)
    requires origin.rows == map[] && DeployTask.Follows(events, tekton, stages)
    requires Run(origin, events, scrub).Stored?
    requires var s := Run(origin, events, scrub).state;
             && Ended(s.rows, 9 + |stages|, StepSucceeded) && s.rows.Keys != {}
             && IsRowGraph(nodes, JobStatus.Succeeded, s.rows, Steps.DEPLOY)
    ensures |nodes| == 9 + |stages| && forall i :: 0 <= i < |nodes| ==> nodes[i].status == NodeStatus.Succeeded
  {
    hide DeployTask.Follows, IsRowGraph, Run;
    var s := Run(origin, events, scrub).state;
    RowsShowAnnounced(origin, events, scrub);
    TotalIsKnown(s.rows, events, tekton, stages);
    GraphTheorems.SucceededGraphIsGreen(nodes, s.rows, 9 + |stages|, Steps.DEPLOY);
  }

  function FailedAt(k: nat, i: nat): NodeStatus {
    if i < k then NodeStatus.Succeeded else if i == k then NodeStatus.Failed else NodeStatus.Skipped
  }

  /** A deploy that failed shows how far it got: everything before the step it failed at
      succeeded, that step failed, and everything behind it was skipped. */
  lemma FailedDeployShowsWhere(nodes: seq<Node>, rows: Rows, k: nat, template: seq<string>)
    requires k >= 1 && Ended(rows, k, StepFailed) && rows.Keys != {}
    requires IsRowGraph(nodes, JobStatus.Failed, rows, template)
    ensures forall i :: 0 <= i < |nodes| ==> nodes[i].status == FailedAt(k, i + 1)
  {
  }
}
