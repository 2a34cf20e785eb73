/** How much the log of a deploy tells on its own, for jobs whose step rows are not there. */
module DeployLog {
  import opened Wrappers
  import opened Recorder
  import opened PipelineGraph
  import DeployPlan
  import DeployTask
  import FinishedDeploy
  import GraphTheorems
  import JobLog
  import LogMarkers
  import StepNames
  import Steps
  import Tekton = TektonPoller

  /** Step markers pass the scrubber unchanged, and no line of tool output starts like one. */
  predicate IsUndisturbed(events: History<Event>, scrub: string -> string) {
    match events
    case Start => true
    case Then(earlier, e) =>
      && IsUndisturbed(earlier, scrub)
      && match e
         case StepCall(index, total, name, _, _) => scrub(Marker(index, total, name)) == Marker(index, total, name)
         case Line(text) => LogMarkers.Unmarked(scrub(text))
         case _ => true
  }

  ghost predicate AreReadable(stages: seq<string>) {
    forall i :: 0 <= i < |stages| ==> LogMarkers.OneLine(stages[i])
  }

  lemma {:induction false} DeployIsReadable(events: History<Event>, scrub: string -> string, tekton: bool, stages: seq<string>)
    requires DeployTask.Follows(events, tekton, stages) && IsUndisturbed(events, scrub) && AreReadable(stages)
    ensures LogMarkers.Readable(events, scrub)
  {
    hide LogMarkers.Unmarked, LogMarkers.OneLine, Marker, DeployPlan.StepName, Tekton.AnnouncedAs;
    match events
    case Start =>
    case Then(earlier, e) =>
      DeployIsReadable(earlier, scrub, tekton, stages);
      if e.StepCall? {
        CallIsReadable(earlier, e, tekton, stages);
      }
  }

  lemma CallIsReadable(earlier: History<Event>, e: Event, tekton: bool, stages: seq<string>)
    requires e.StepCall? && DeployTask.Follows(Then(earlier, e), tekton, stages) && AreReadable(stages)
    ensures LogMarkers.OneLine(e.name)
  {
    hide LogMarkers.OneLine, DeployPlan.StepName, Tekton.AnnouncedAs;
    if tekton && CallCount(earlier) == 0 {
      StepNames.DeployNamesAreReadable(0);
      assert Steps.DEPLOY[0] == Tekton.OWN_CLONE;
    } else {
      StepNames.StepNamesAreReadable(tekton, stages, if tekton then CallCount(earlier) else CallCount(earlier) + 1);
    }
  }

  /** The job's status is the one its last step was closed with, unless the job still goes on. */
  predicate IsAsMarked(events: History<Event>, status: JobStatus) {
    IsOver(events) ==> status == if ClosedAs(events) == StepSucceeded then JobStatus.Succeeded else JobStatus.Failed
  }

  predicate SameNodes(a: seq<Node>, b: seq<Node>) {
    |a| == |b| && forall i :: 0 <= i < |a| ==> IsSameNode(a[i], b[i])
  }

  predicate IsSameNode(a: Node, b: Node) {
    a.id == b.id && a.name == b.name && a.status == b.status && a.dependsOn == b.dependsOn
  }

  /** What a deploy has announced decides how far its graph goes. */
  lemma DeclaredSoFar(
      status: JobStatus, events: History<Event>, scrub: string -> string, tekton: bool, stages: seq<string>)
    requires DeployTask.Follows(events, tekton, stages) && CallCount(events) >= 1
    ensures var r := Run(Fresh(status), events, scrub);
            && r.Stored? && GraphTheorems.Shaped(r.state.rows, LastIndex(events))
            && 1 <= LastIndex(events) <= 9 + |stages|
            && r.state.rows.Keys != {}
            && RowsTotal(r.state.rows) == FinishedDeploy.TotalNow(events, tekton, stages)
  {
    hide RowsTotal, DeployPlan.StepName, Tekton.AnnouncedAs, Run;
    if tekton {
      Tekton.TektonIsDisciplined(events, stages);
    } else {
      DeployPlan.PlanIsDisciplined(events, stages);
    }
    DisciplinedRunShape(Fresh(status), events, scrub);
    RowsShowAnnounced(Fresh(status), events, scrub);
    var rows := Run(Fresh(status), events, scrub).state.rows;
    assert 1 in rows;
    assert Shown(rows).Keys == rows.Keys;
    FinishedDeploy.TotalSoFar(events, tekton, stages);
    TotalOfRows(rows, events);
  }

  lemma TotalOfRows(rows: Rows, events: History<Event>)
    requires rows.Keys != {} && Shown(rows) == Announced(events) && Announced(events).Keys != {}
    ensures RowsTotal(rows) == DeclaredTotal(Announced(events))
  {
  }

  lemma StatusesAgree(a: seq<Node>, b: seq<Node>, job: JobStatus, rows: Rows, k: nat, i: nat)
    requires GraphTheorems.Shaped(rows, k) && rows.Keys != {} && Shown(rows).Keys != {}
    requires GraphTheorems.Consistent(rows, k, job)
    requires IsRowGraph(a, job, rows, Steps.DEPLOY) && IsLogGraph(b, job, Shown(rows), Steps.DEPLOY)
    requires i < |a| && i < |b|
    ensures a[i].status == b[i].status
  {
    hide IsChain, LabelOf, ShowsRow;
    GraphTheorems.ShapedCurrent(rows, k);
    assert Shown(rows).Keys == rows.Keys;
    assert IsRowNode(a[i], i + 1, job, rows, Steps.DEPLOY);
    assert IsLogNode(b[i], i + 1, job, Shown(rows), Steps.DEPLOY);
  }

  lemma ReadBack(status: JobStatus, events: History<Event>, scrub: string -> string, tekton: bool, stages: seq<string>)
    requires DeployTask.Follows(events, tekton, stages) && IsUndisturbed(events, scrub) && AreReadable(stages)
    requires |JobLog.Written(LogMarkers.Chunks(events, scrub))| <= JobLog.LOG_CAP
    requires Run(Fresh(status), events, scrub).Stored?
    ensures LogMarkers.Stages(Run(Fresh(status), events, scrub).state.log) == Shown(Run(Fresh(status), events, scrub).state.rows)
  {
    hide DeployTask.Follows;
    DeployIsReadable(events, scrub, tekton, stages);
    LogMarkers.LogAgreesWithRows(status, events, scrub);
  }

  lemma CurrentIsConsistent(status: JobStatus, events: History<Event>, scrub: string -> string, tekton: bool, stages: seq<string>)
    requires DeployTask.Follows(events, tekton, stages) && CallCount(events) >= 1
    requires Run(Fresh(status), events, scrub).Stored? ==> IsAsMarked(events, Run(Fresh(status), events, scrub).state.status)
    ensures var r := Run(Fresh(status), events, scrub);
            r.Stored? && LastIndex(events) in r.state.rows
            && GraphTheorems.Consistent(r.state.rows, LastIndex(events), r.state.status)
  {
    hide DeployPlan.StepName, Tekton.AnnouncedAs, Run;
    if tekton {
      Tekton.TektonIsDisciplined(events, stages);
    } else {
      DeployPlan.PlanIsDisciplined(events, stages);
    }
    DisciplinedRunShape(Fresh(status), events, scrub);
    if IsOver(events) {
      GraphTheorems.OverIsClosed(events);
    }
  }

  /** At any moment of any deploy, on either path, as long as its log is within the cap and
      undisturbed, the graph drawn from the log is the graph drawn from the rows, with its ids, labels,
      statuses and edges, exactly when the repository has no stages of its own, or they are not counted
      yet, or every step has started. */
  lemma DeployLogTellsAllIff(
      status: JobStatus, events: History<Event>, scrub: string -> string, tekton: bool, stages: seq<string>,
      a: seq<Node>, b: seq<Node>)
    requires DeployTask.Follows(events, tekton, stages) && CallCount(events) >= 1
    requires IsUndisturbed(events, scrub) && AreReadable(stages)
    requires |JobLog.Written(LogMarkers.Chunks(events, scrub))| <= JobLog.LOG_CAP
    requires Run(Fresh(status), events, scrub).Stored?
    requires var s := Run(Fresh(status), events, scrub).state;
             && IsAsMarked(events, s.status)
             && s.rows.Keys != {} && IsRowGraph(a, s.status, s.rows, Steps.DEPLOY)
             && LogMarkers.Stages(s.log).Keys != {} && IsLogGraph(b, s.status, LogMarkers.Stages(s.log), Steps.DEPLOY)
    ensures SameNodes(a, b) <==> stages == [] || FinishedDeploy.IsTotalProvisional(events, tekton) || LastIndex(events) == 9 + |stages|
  {
    hide *;
    TotalNowIs(events, tekton, stages);
    var s, k := Run(Fresh(status), events, scrub).state, LastIndex(events);
    ReadBack(status, events, scrub, tekton, stages);
    DeclaredSoFar(status, events, scrub, tekton, stages);
    CurrentIsConsistent(status, events, scrub, tekton, stages);
    GraphTheorems.FallbackLabelsAgreeIff(a, b, s.status, s.rows, k);
    GraphTheorems.GraphLengths(a, b, s.status, s.rows, k);
    SameLabelsAreSameNodes(a, b, s.status, s.rows, k);
  }

  lemma TotalNowIs(events: History<Event>, tekton: bool, stages: seq<string>)
    ensures FinishedDeploy.TotalNow(events, tekton, stages) ==
            if FinishedDeploy.IsTotalProvisional(events, tekton) then 9 else 9 + |stages|
  {
  }

  lemma SameLabelsAreSameNodes(a: seq<Node>, b: seq<Node>, job: JobStatus, rows: Rows, k: nat)
    requires GraphTheorems.Shaped(rows, k) && rows.Keys != {} && Shown(rows).Keys != {}
    requires GraphTheorems.Consistent(rows, k, job)
    requires IsRowGraph(a, job, rows, Steps.DEPLOY) && IsLogGraph(b, job, Shown(rows), Steps.DEPLOY)
    ensures |b| <= |a| && (SameNodes(a, b) <==> |a| == |b| && GraphTheorems.SameLabels(a, b, |b|))
  {
    hide IsRowGraph, IsLogGraph, GraphTheorems.Shaped, GraphTheorems.Consistent;
    GraphTheorems.FallbackLabelsAgreeIff(a, b, job, rows, k);
    if |a| == |b| && GraphTheorems.SameLabels(a, b, |b|) {
      forall i | 0 <= i < |a|
        ensures IsSameNode(a[i], b[i])
      {
        StatusesAgree(a, b, job, rows, k, i);
      }
    }
  }
}
