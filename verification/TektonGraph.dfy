/** What the pipeline graph makes of a Tekton deploy while it runs. */
module TektonGraph {
  import opened Wrappers
  import opened Recorder
  import opened PipelineGraph
  import DeployTask
  import FinishedDeploy
  import StepNames
  import Steps
  import Tekton = TektonPoller

  ghost function TektonShown(stages: seq<string>, m: nat): map<nat, (nat, string)>
    requires m <= 9 + |stages|
  {
    map i | 1 <= i <= m :: (9 + |stages|, StepNames.NameOf(true, stages, i))
  }

  /** Once the run has reported, the host's own clone is forgotten: its row has been reopened under
      the name and total of the run's. */
  lemma {:induction false} TektonAnnounces(events: History<Event>, stages: seq<string>)
    requires Tekton.FollowsTekton(events, stages) && CallCount(events) >= 1
    ensures 1 <= LastIndex(events) <= 9 + |stages|
    ensures CallCount(events) == 1 ==> LastIndex(events) == 1 && Announced(events) == map[1 := (9, Tekton.OWN_CLONE)]
    ensures CallCount(events) >= 2 ==>
              LastIndex(events) == CallCount(events) - 1 && Announced(events) == TektonShown(stages, LastIndex(events))
  {
    hide Tekton.AnnouncedAs;
    match events
    case Then(earlier, e) =>
      if CallCount(earlier) >= 1 {
        TektonAnnounces(earlier, stages);
        if e.StepCall? {
          ShownGrows(stages, LastIndex(events), Announced(earlier));
        }
      } else if e.StepCall? {
        DeployTask.NothingAnnounced(earlier);
      }
  }

  lemma ShownGrows(stages: seq<string>, m: nat, before: map<nat, (nat, string)>)
    requires 1 <= m <= 9 + |stages|
    requires before == (if m == 1 then map[1 := (9, Tekton.OWN_CLONE)] else TektonShown(stages, m - 1))
    ensures TektonShown(stages, m) == before[m := (9 + |stages|, StepNames.NameOf(true, stages, m))]
  {
    hide StepNames.NameOf;
  }

  /** The label of step `i` after `m` steps: what it was announced as; before it has started, a
      placeholder for a stage, and what the template calls it for a built-in step. */
  predicate IsTektonLabel(nodes: seq<Node>, stages: seq<string>, m: nat, i: nat)
    requires 1 <= i <= |nodes| == 9 + |stages|
  {
    nodes[i - 1].name ==
    if i <= m then StepNames.NameOf(true, stages, i)
    else if Steps.FIXED_PREFIX < i <= Steps.FIXED_PREFIX + |stages| then Placeholder(i, 9 + |stages|)
    else StepNames.NameOf(false, stages, i)
  }

  lemma TektonLabel(stages: seq<string>, m: nat, i: nat)
    requires 1 <= m <= 9 + |stages| && 1 <= i <= 9 + |stages|
    ensures LabelOf(TektonShown(stages, m), 9 + |stages|, Steps.DEPLOY, i) ==
            if i <= m then StepNames.NameOf(true, stages, i)
            else if Steps.FIXED_PREFIX < i <= Steps.FIXED_PREFIX + |stages| then Placeholder(i, 9 + |stages|)
            else StepNames.NameOf(false, stages, i)
  {
    hide Placeholder, Tekton.AnnouncedAs;
  }

  /** From the first report of the run on, at any moment, the rows are linear and the graph has all 9 + n
      steps: those that have started under the names they were announced by, placeholders at exactly the
      stages that have not, and for every other step the name the sandbox plan has for the same work. */
  lemma RunningTektonIsPredicted(
      nodes: seq<Node>, status: JobStatus, events: History<Event>, scrub: string -> string, stages: seq<string>)
    requires Tekton.FollowsTekton(events, stages) && !IsOver(events) && CallCount(events) >= 2
    ensures var r := Run(Fresh(status), events, scrub);
            && r.Stored?
            && Linear(r.state.rows, LastIndex(events))
            && r.state.rows.Keys != {}
            && (IsRowGraph(nodes, r.state.status, r.state.rows, Steps.DEPLOY) ==>
                  |nodes| == 9 + |stages| && forall i :: 1 <= i <= |nodes| ==> IsTektonLabel(nodes, stages, LastIndex(events), i))
  {
    hide IsRowGraph, IsTektonLabel, Run, StepNames.NameOf;
    Tekton.TektonIsDisciplined(events, stages);
    DisciplinedRunShape(Fresh(status), events, scrub);
    RowsShowAnnounced(Fresh(status), events, scrub);
    TektonAnnounces(events, stages);
    FinishedDeploy.TotalSoFar(events, true, stages);
    var s := Run(Fresh(status), events, scrub).state;
    assert 1 in s.rows;
    if IsRowGraph(nodes, s.status, s.rows, Steps.DEPLOY) {
      TektonGraphLabels(nodes, s.status, s.rows, stages, LastIndex(events));
    }
  }

  lemma TektonGraphLabels(nodes: seq<Node>, job: JobStatus, rows: Rows, stages: seq<string>, m: nat)
    requires 1 <= m <= 9 + |stages| && rows.Keys != {} && Shown(rows) == TektonShown(stages, m)
    requires TektonShown(stages, m).Keys != {} && DeclaredTotal(TektonShown(stages, m)) == 9 + |stages|
    requires IsRowGraph(nodes, job, rows, Steps.DEPLOY)
    ensures |nodes| == 9 + |stages| && forall i :: 1 <= i <= |nodes| ==> IsTektonLabel(nodes, stages, m, i)
  {
    hide IsChain, LabelOf, StepNames.NameOf, Placeholder;
    forall i | 1 <= i <= |nodes|
      ensures IsTektonLabel(nodes, stages, m, i)
    {
      assert IsRowNode(nodes[i - 1], i, job, rows, Steps.DEPLOY);
      TektonLabel(stages, m, i);
    }
  }
}
