/** The labels of the pipeline graph of a deploy at each of its moments, on either path, and when two
    of its nodes carry the same one. */
module GraphLabels {
  import opened Wrappers
  import opened Recorder
  import opened PipelineGraph
  import opened StepNames
  import DeployPlan
  import DeployTask
  import FinishedDeploy
  import GraphTheorems
  import PipelineConfig
  import Steps
  import Tekton = TektonPoller
  import TektonGraph
  import Text

  // ----- the label of each step after m of them -----

  /** What step `i` is called after `m` steps: the name it was announced under; before it has started,
      a placeholder for a stage and the template's name for a built-in step. */
  function LabelAt(tekton: bool, stages: seq<string>, m: nat, i: nat): string
    requires 1 <= i <= 9 + |stages|
  {
    if i <= m then NameOf(tekton, stages, i)
    else if IsStagePosition(stages, i) then Placeholder(i, 9 + |stages|)
    else NameOf(false, stages, i)
  }

  /** The step at which the `t`-th built-in one is announced. */
  function StepOf(stages: seq<string>, t: nat): nat {
    if t < Steps.FIXED_PREFIX then t + 1 else t + 1 + |stages|
  }

  /** What the `t`-th built-in step is called after `m` steps. */
  function BuiltInLabel(tekton: bool, stages: seq<string>, m: nat, t: nat): string
    requires t < 9
  {
    if StepOf(stages, t) <= m then BuiltIn(tekton)[t] else BuiltIn(false)[t]
  }

  /** What stage `k` is called until it starts. */
  function StagePlaceholder(stages: seq<string>, k: nat): string {
    Placeholder(4 + k, 9 + |stages|)
  }

  lemma LabelKinds(tekton: bool, stages: seq<string>, m: nat, i: nat)
    requires 1 <= i <= 9 + |stages|
    ensures IsStagePosition(stages, i) ==>
              LabelAt(tekton, stages, m, i) == if i <= m then stages[i - 4] else StagePlaceholder(stages, i - 4)
    ensures !IsStagePosition(stages, i) ==>
              LabelAt(tekton, stages, m, i) == BuiltInLabel(tekton, stages, m, BuiltInPosition(stages, i))
  {
    hide NameOf, BuiltIn, Placeholder;
    StagesAreInserted(tekton, stages, i);
    StagesAreInserted(false, stages, i);
  }

  lemma LabelOfBuiltIn(tekton: bool, stages: seq<string>, m: nat, t: nat)
    requires t < 9
    ensures LabelAt(tekton, stages, m, StepOf(stages, t)) == BuiltInLabel(tekton, stages, m, t)
  {
    hide LabelAt, BuiltInLabel;
    LabelKinds(tekton, stages, m, StepOf(stages, t));
  }

  // ----- labels that never coincide -----

  /** The names of the two paths are different too, wherever they are not the same step's. */
  lemma BuiltInNamesDifferAcross(t: nat, u: nat)
    requires t < u < 9
    ensures BuiltIn(true)[t] != BuiltIn(false)[u] && BuiltIn(false)[t] != BuiltIn(true)[u]
  {
    assert |TEKTON[0]| == 5 && |TEKTON[1]| == 11 && |TEKTON[2]| == 15 && |TEKTON[3]| == 5 && |TEKTON[5]| == 4;
    assert TEKTON[4] == Steps.DEPLOY[4] && TEKTON[6] == Steps.DEPLOY[6] && TEKTON[7] == Steps.DEPLOY[7] && TEKTON[8] == Steps.DEPLOY[8];
    Steps.DeployNamesDiffer();
    assert |Steps.DEPLOY[0]| == 18 && |Steps.DEPLOY[1]| == 29 && |Steps.DEPLOY[2]| == 34 && |Steps.DEPLOY[3]| == 14;
    assert |Steps.DEPLOY[4]| == 25 && |Steps.DEPLOY[5]| == 17;
    assert |Steps.DEPLOY[6]| == 30 && |Steps.DEPLOY[7]| == 19 && |Steps.DEPLOY[8]| == 18;
  }

  lemma BuiltInLabelsDiffer(tekton: bool, stages: seq<string>, m: nat, t: nat, u: nat)
    requires t < u < 9
    ensures BuiltInLabel(tekton, stages, m, t) != BuiltInLabel(tekton, stages, m, u)
  {
    hide BuiltIn;
    BuiltInNamesDiffer(tekton);
    BuiltInNamesDiffer(false);
    BuiltInNamesDifferAcross(t, u);
  }

  lemma PlaceholdersDiffer(stages: seq<string>, j: nat, k: nat)
    requires j != k
    ensures StagePlaceholder(stages, j) != StagePlaceholder(stages, k)
  {
    hide Text.Decimal;
    if StagePlaceholder(stages, j) == StagePlaceholder(stages, k) {
      NumberOfPlaceholder(4 + j, 9 + |stages|);
      NumberOfPlaceholder(4 + k, 9 + |stages|);
      Text.DecimalInjective(4 + j, 4 + k);
    }
  }

  /** The number of a placeholder can be read off it. */
  lemma NumberOfPlaceholder(i: nat, declared: nat)
    ensures |Placeholder(i, declared)| >= 5
    ensures var rest := Placeholder(i, declared)[5..];
            rest[..Text.DigitRun(rest)] == Text.Decimal(i)
  {
    hide Text.Decimal, Text.DigitRun;
    var tail := " of " + Text.Decimal(declared);
    var digits := Text.Decimal(i);
    assert Placeholder(i, declared) == "step " + (digits + tail);
    assert Placeholder(i, declared)[5..] == digits + tail;
    assert tail[0] == ' ';
    Text.DigitRunOf(digits, tail);
    assert (digits + tail)[..|digits|] == digits;
  }

  lemma PlaceholderIsNoBuiltIn(tekton: bool, stages: seq<string>, m: nat, k: nat, t: nat)
    requires t < 9
    ensures StagePlaceholder(stages, k) != BuiltInLabel(tekton, stages, m, t)
  {
    hide Placeholder;
    GraphTheorems.PlaceholderIsNoName(4 + k, 9 + |stages|, t);
    PlaceholderIsNoTaskName(4 + k, 9 + |stages|, t);
  }

  lemma PlaceholderIsNoTaskName(i: nat, declared: nat, t: nat)
    requires t < 9
    ensures Placeholder(i, declared) != TEKTON[t]
  {
    assert Placeholder(i, declared)[..2] == "st";
    assert TEKTON[t][0] != 's' || TEKTON[t][1] != 't';
  }

  // ----- when two labels coincide -----

  /** After `m` steps, no built-in step and no placeholder reads like stage `k`. */
  predicate StandsOut(tekton: bool, stages: seq<string>, m: nat, k: nat)
    requires k < |stages|
  {
    && (forall t :: 0 <= t < 9 ==> stages[k] != BuiltInLabel(tekton, stages, m, t))
    && (forall j :: 0 <= j < |stages| && m < 4 + j ==> stages[k] != StagePlaceholder(stages, j))
  }

  /** Every stage that has started stands out. */
  ghost predicate StagesStandOut(tekton: bool, stages: seq<string>, m: nat) {
    forall k :: 0 <= k < |stages| && 4 + k <= m ==> StandsOut(tekton, stages, m, k)
  }

  ghost predicate AllLabelsDiffer(tekton: bool, stages: seq<string>, m: nat) {
    forall i, j :: 1 <= i < j <= 9 + |stages| ==> LabelAt(tekton, stages, m, i) != LabelAt(tekton, stages, m, j)
  }

  ghost predicate AreDistinct(stages: seq<string>) {
    forall i, j :: 0 <= i < j < |stages| ==> stages[i] != stages[j]
  }

  lemma LabelsAtDifferIff(tekton: bool, stages: seq<string>, m: nat)
    requires AreDistinct(stages)
    ensures AllLabelsDiffer(tekton, stages, m) <==> StagesStandOut(tekton, stages, m)
  {
    hide LabelAt, StandsOut;
    if StagesStandOut(tekton, stages, m) {
      forall i, j | 1 <= i < j <= 9 + |stages|
        ensures LabelAt(tekton, stages, m, i) != LabelAt(tekton, stages, m, j)
      {
        TwoLabelsDiffer(tekton, stages, m, i, j);
      }
    } else {
      var k :| 0 <= k < |stages| && 4 + k <= m && !StandsOut(tekton, stages, m, k);
      StageIsRepeated(tekton, stages, m, k);
    }
  }

  lemma TwoLabelsDiffer(tekton: bool, stages: seq<string>, m: nat, i: nat, j: nat)
    requires AreDistinct(stages) && StagesStandOut(tekton, stages, m) && 1 <= i < j <= 9 + |stages|
    ensures LabelAt(tekton, stages, m, i) != LabelAt(tekton, stages, m, j)
  {
    hide LabelAt, BuiltInLabel, StagePlaceholder;
    LabelKinds(tekton, stages, m, i);
    LabelKinds(tekton, stages, m, j);
    if IsStagePosition(stages, i) {
      if IsStagePosition(stages, j) {
        assert i <= m ==> StandsOut(tekton, stages, m, i - 4);
        PlaceholdersDiffer(stages, i - 4, j - 4);
      } else {
        StageAndBuiltInDiffer(tekton, stages, m, i - 4, BuiltInPosition(stages, j));
      }
    } else if IsStagePosition(stages, j) {
      StageAndBuiltInDiffer(tekton, stages, m, j - 4, BuiltInPosition(stages, i));
    } else {
      BuiltInLabelsDiffer(tekton, stages, m, BuiltInPosition(stages, i), BuiltInPosition(stages, j));
    }
  }

  lemma StageAndBuiltInDiffer(tekton: bool, stages: seq<string>, m: nat, k: nat, t: nat)
    requires StagesStandOut(tekton, stages, m) && k < |stages| && t < 9
    ensures (if 4 + k <= m then stages[k] else StagePlaceholder(stages, k)) != BuiltInLabel(tekton, stages, m, t)
  {
    hide BuiltInLabel, StagePlaceholder;
    if 4 + k <= m {
      assert StandsOut(tekton, stages, m, k);
    } else {
      PlaceholderIsNoBuiltIn(tekton, stages, m, k, t);
    }
  }

  lemma StageIsRepeated(tekton: bool, stages: seq<string>, m: nat, k: nat)
    requires k < |stages| && 4 + k <= m && !StandsOut(tekton, stages, m, k)
    ensures !AllLabelsDiffer(tekton, stages, m)
  {
    hide LabelAt, BuiltInLabel, StagePlaceholder;
    LabelKinds(tekton, stages, m, 4 + k);
    var other: nat;
    if t :| 0 <= t < 9 && stages[k] == BuiltInLabel(tekton, stages, m, t) {
      LabelOfBuiltIn(tekton, stages, m, t);
      other := StepOf(stages, t);
    } else {
      var j :| 0 <= j < |stages| && m < 4 + j && stages[k] == StagePlaceholder(stages, j);
      LabelKinds(tekton, stages, m, 4 + j);
      other := 4 + j;
    }
    assert LabelAt(tekton, stages, m, other) == LabelAt(tekton, stages, m, 4 + k);
  }

  // ----- over all moments -----

  /** No stage is named like a built-in step of the path, like a template step behind the stages, or
      like the placeholder of a later stage. */
  predicate IsTelling(tekton: bool, stages: seq<string>, k: nat)
    requires k < |stages|
  {
    && stages[k] !in BuiltIn(tekton)
    && stages[k] !in BuiltIn(false)[Steps.FIXED_PREFIX..]
    && forall j :: k < j < |stages| ==> stages[k] != StagePlaceholder(stages, j)
  }

  /** At every moment of a deploy all labels are different exactly when every stage has a telling name. */
  lemma LabelsAlwaysDifferIff(tekton: bool, stages: seq<string>)
    requires AreDistinct(stages)
    ensures (forall m :: 1 <= m <= 9 + |stages| ==> AllLabelsDiffer(tekton, stages, m))
            <==> forall k :: 0 <= k < |stages| ==> IsTelling(tekton, stages, k)
  {
    hide AllLabelsDiffer, StagesStandOut, IsTelling;
    if forall k :: 0 <= k < |stages| ==> IsTelling(tekton, stages, k) {
      forall m | 1 <= m <= 9 + |stages|
        ensures AllLabelsDiffer(tekton, stages, m)
      {
        TellingStandOut(tekton, stages, m);
        LabelsAtDifferIff(tekton, stages, m);
      }
    }
    if forall m :: 1 <= m <= 9 + |stages| ==> AllLabelsDiffer(tekton, stages, m) {
      forall k | 0 <= k < |stages|
        ensures IsTelling(tekton, stages, k)
      {
        var first, last := 4 + k, 9 + |stages|;
        assert AllLabelsDiffer(tekton, stages, first) && AllLabelsDiffer(tekton, stages, last);
        LabelsAtDifferIff(tekton, stages, first);
        LabelsAtDifferIff(tekton, stages, last);
        StandingOutIsTelling(tekton, stages, k);
      }
    }
  }

  lemma TellingStandOut(tekton: bool, stages: seq<string>, m: nat)
    requires forall k :: 0 <= k < |stages| ==> IsTelling(tekton, stages, k)
    ensures StagesStandOut(tekton, stages, m)
  {
    hide BuiltIn, StagePlaceholder;
    forall k | 0 <= k < |stages| && 4 + k <= m
      ensures StandsOut(tekton, stages, m, k)
    {
      assert IsTelling(tekton, stages, k);
      forall t | 0 <= t < 9
        ensures stages[k] != BuiltInLabel(tekton, stages, m, t)
      {
        if StepOf(stages, t) > m {
          assert BuiltIn(false)[Steps.FIXED_PREFIX..][t - 3] == BuiltIn(false)[t];
        }
      }
    }
  }

  lemma StandingOutIsTelling(tekton: bool, stages: seq<string>, k: nat)
    requires k < |stages|
    requires StagesStandOut(tekton, stages, 4 + k) && StagesStandOut(tekton, stages, 9 + |stages|)
    ensures IsTelling(tekton, stages, k)
  {
    hide BuiltIn, StagePlaceholder;
    assert StandsOut(tekton, stages, 4 + k, k) && StandsOut(tekton, stages, 9 + |stages|, k);
    forall t | 0 <= t < 9
      ensures stages[k] != BuiltIn(tekton)[t]
    {
      assert BuiltInLabel(tekton, stages, 9 + |stages|, t) == BuiltIn(tekton)[t];
    }
    forall t | 3 <= t < 9
      ensures stages[k] != BuiltIn(false)[t]
    {
      assert BuiltInLabel(tekton, stages, 4 + k, t) == BuiltIn(false)[t];
    }
  }

  // ----- the nodes of a run -----

  ghost predicate NodesDiffer(nodes: seq<Node>) {
    forall i, j :: 0 <= i < j < |nodes| ==> nodes[i].name != nodes[j].name
  }

  ghost predicate AreLabelled(nodes: seq<Node>, tekton: bool, stages: seq<string>, m: nat) {
    |nodes| == 9 + |stages| && forall i :: 1 <= i <= |nodes| ==> IsLabelled(nodes, tekton, stages, m, i)
  }

  predicate IsLabelled(nodes: seq<Node>, tekton: bool, stages: seq<string>, m: nat, i: nat)
    requires 1 <= i <= |nodes| == 9 + |stages|
  {
    nodes[i - 1].name == LabelAt(tekton, stages, m, i)
  }

  ghost predicate AreTemplateLabels(nodes: seq<Node>) {
    |nodes| == 9 && forall i :: 0 <= i < 9 ==> nodes[i].name == Steps.DEPLOY[i]
  }

  /** The labels of the graph of any deploy, at any moment: the template's as long as the stages are not
      counted, and `LabelAt` from then on. */
  lemma GraphIsLabelled(
      nodes: seq<Node>, status: JobStatus, events: History<Event>, scrub: string -> string, tekton: bool, stages: seq<string>)
    requires DeployTask.Follows(events, tekton, stages) && CallCount(events) >= 1
    ensures var r := Run(Fresh(status), events, scrub);
            && r.Stored? && r.state.rows.Keys != {}
            && (IsRowGraph(nodes, r.state.status, r.state.rows, Steps.DEPLOY) ==>
                  if FinishedDeploy.IsTotalProvisional(events, tekton) then AreTemplateLabels(nodes)
                  else AreLabelled(nodes, tekton, stages, LastIndex(events)))
  {
    hide IsRowGraph, AreLabelled, AreTemplateLabels, Run, DeployPlan.StepName, Tekton.AnnouncedAs;
    if tekton {
      Tekton.TektonIsDisciplined(events, stages);
    } else {
      DeployPlan.PlanIsDisciplined(events, stages);
    }
    DisciplinedRunShape(Fresh(status), events, scrub);
    RowsShowAnnounced(Fresh(status), events, scrub);
    var s := Run(Fresh(status), events, scrub).state;
    assert 1 in s.rows;
    if IsRowGraph(nodes, s.status, s.rows, Steps.DEPLOY) {
      if tekton {
        TektonNodesAreLabelled(nodes, s.status, s.rows, events, stages);
      } else {
        SandboxNodesAreLabelled(nodes, s.status, s.rows, events, stages);
      }
    }
  }

  lemma SandboxNodesAreLabelled(nodes: seq<Node>, job: JobStatus, rows: Rows, events: History<Event>, stages: seq<string>)
    requires DeployPlan.FollowsPlan(events, stages) && CallCount(events) >= 1
    requires rows.Keys != {} && Shown(rows) == Announced(events) && IsRowGraph(nodes, job, rows, Steps.DEPLOY)
    ensures if FinishedDeploy.IsTotalProvisional(events, false) then AreTemplateLabels(nodes)
            else AreLabelled(nodes, false, stages, LastIndex(events))
  {
    hide IsRowGraph, DeployPlan.StepName, Placeholder;
    DeployPlan.PlanIsDisciplined(events, stages);
    DeployPlan.PlanAnnounces(events, stages);
    var m := CallCount(events);
    if m <= Steps.FIXED_PREFIX {
      DeployPlan.GraphBeforeTotalIsKnown(nodes, job, rows, stages, m);
    } else {
      DeployPlan.GraphPredictsDeploy(nodes, job, rows, stages, m);
      forall i | 1 <= i <= |nodes|
        ensures IsLabelled(nodes, false, stages, m, i)
      {
        assert DeployPlan.IsPredictedAt(nodes, stages, m, i);
      }
    }
  }

  lemma TektonNodesAreLabelled(nodes: seq<Node>, job: JobStatus, rows: Rows, events: History<Event>, stages: seq<string>)
    requires Tekton.FollowsTekton(events, stages) && CallCount(events) >= 1
    requires rows.Keys != {} && Shown(rows) == Announced(events) && IsRowGraph(nodes, job, rows, Steps.DEPLOY)
    ensures if FinishedDeploy.IsTotalProvisional(events, true) then AreTemplateLabels(nodes)
            else AreLabelled(nodes, true, stages, LastIndex(events))
  {
    hide IsRowGraph, NameOf, Placeholder;
    TektonGraph.TektonAnnounces(events, stages);
    FinishedDeploy.TotalSoFar(events, true, stages);
    var m := LastIndex(events);
    if CallCount(events) == 1 {
      OwnCloneGraph(nodes, job, rows);
    } else {
      TektonGraph.TektonGraphLabels(nodes, job, rows, stages, m);
      forall i | 1 <= i <= |nodes|
        ensures IsLabelled(nodes, true, stages, m, i)
      {
        assert TektonGraph.IsTektonLabel(nodes, stages, m, i);
      }
    }
  }

  /** With only the host's own clone announced, the graph is the template's. */
  lemma OwnCloneGraph(nodes: seq<Node>, job: JobStatus, rows: Rows)
    requires rows.Keys != {} && Shown(rows) == map[1 := (9, Tekton.OWN_CLONE)]
    requires RowsTotal(rows) == 9 && IsRowGraph(nodes, job, rows, Steps.DEPLOY)
    ensures AreTemplateLabels(nodes)
  {
    hide IsChain, Placeholder;
    forall i | 0 <= i < 9
      ensures nodes[i].name == Steps.DEPLOY[i]
    {
      assert IsRowNode(nodes[i], i + 1, job, rows, Steps.DEPLOY);
    }
  }

  /** Repeated stage names are refused so that no two nodes of the pipeline graph carry the same label.
      At any moment of any deploy, on either path, running or over, they do not exactly when every stage
      that has started stands out from the built-in steps and placeholders then shown. */
  lemma NodesDifferIff(
      nodes: seq<Node>, status: JobStatus, events: History<Event>, scrub: string -> string, tekton: bool, stages: seq<string>)
    requires AreDistinct(stages) && DeployTask.Follows(events, tekton, stages) && CallCount(events) >= 1
    requires var r := Run(Fresh(status), events, scrub);
             r.Stored? && r.state.rows.Keys != {} ==> IsRowGraph(nodes, r.state.status, r.state.rows, Steps.DEPLOY)
    ensures NodesDiffer(nodes) <==> StagesStandOut(tekton, stages, LastIndex(events))
  {
    hide *;
    GraphIsLabelled(nodes, status, events, scrub, tekton, stages);
    if FinishedDeploy.IsTotalProvisional(events, tekton) {
      TemplateLabelsDiffer(nodes);
      NoStageHasStarted(events, tekton, stages);
    } else {
      LabelledNodesDifferIff(nodes, tekton, stages, LastIndex(events));
      LabelsAtDifferIff(tekton, stages, LastIndex(events));
    }
  }

  lemma TemplateLabelsDiffer(nodes: seq<Node>)
    requires AreTemplateLabels(nodes)
    ensures NodesDiffer(nodes)
  {
    Steps.DeployNamesDiffer();
  }

  lemma NoStageHasStarted(events: History<Event>, tekton: bool, stages: seq<string>)
    requires DeployTask.Follows(events, tekton, stages) && FinishedDeploy.IsTotalProvisional(events, tekton)
    ensures StagesStandOut(tekton, stages, LastIndex(events))
  {
    hide StandsOut, DeployPlan.StepName, Tekton.AnnouncedAs;
    if tekton {
      Tekton.TektonIsDisciplined(events, stages);
    } else {
      DeployPlan.PlanIsDisciplined(events, stages);
    }
  }

  lemma LabelledNodesDifferIff(nodes: seq<Node>, tekton: bool, stages: seq<string>, m: nat)
    requires AreLabelled(nodes, tekton, stages, m)
    ensures NodesDiffer(nodes) <==> AllLabelsDiffer(tekton, stages, m)
  {
    hide LabelAt;
    forall i | 1 <= i <= |nodes|
      ensures nodes[i - 1].name == LabelAt(tekton, stages, m, i)
    {
      assert IsLabelled(nodes, tekton, stages, m, i);
    }
    if AllLabelsDiffer(tekton, stages, m) {
      forall i, j | 0 <= i < j < |nodes|
        ensures nodes[i].name != nodes[j].name
      {
        var p, q := i + 1, j + 1;
        assert LabelAt(tekton, stages, m, p) != LabelAt(tekton, stages, m, q);
      }
    }
    if NodesDiffer(nodes) {
      forall i, j | 1 <= i < j <= 9 + |stages|
        ensures LabelAt(tekton, stages, m, i) != LabelAt(tekton, stages, m, j)
      {
        var p, q := i - 1, j - 1;
        assert nodes[p].name != nodes[q].name;
      }
    }
  }

  // ----- every moment is reached -----

  /** The first `m` steps of a deploy, with nothing else in between. */
  function FirstSteps(tekton: bool, stages: seq<string>, m: nat): History<Event>
    requires m <= 9 + |stages|
  {
    if m == 0 then (if tekton then Then(Start, StepCall(1, 9, Tekton.OWN_CLONE, 0, 0)) else Start)
    else
      var total := if tekton then 9 + |stages| else DeployPlan.StepTotal(stages, m);
      Then(FirstSteps(tekton, stages, m - 1), StepCall(m, total, NameOf(tekton, stages, m), 0, 0))
  }

  /** There is a deploy at each of its moments, so the condition over all moments is about deploys. */
  lemma {:induction false} EveryMomentIsReached(tekton: bool, stages: seq<string>, m: nat)
    requires m <= 9 + |stages|
    ensures var events := FirstSteps(tekton, stages, m);
            && DeployTask.Follows(events, tekton, stages) && !IsOver(events)
            && CallCount(events) == (if tekton then m + 1 else m)
            && (m >= 1 ==> LastIndex(events) == m)
  {
    hide DeployPlan.StepName, Tekton.AnnouncedAs, DeployPlan.StepTotal;
    if m > 0 {
      EveryMomentIsReached(tekton, stages, m - 1);
      var e := FirstSteps(tekton, stages, m).last;
      if tekton {
        assert Tekton.IsTektonCall(e, stages, m - 1);
      } else {
        assert DeployPlan.IsPlanned(e, stages, m);
      }
    } else if tekton {
      var e := FirstSteps(tekton, stages, 0).last;
      assert Tekton.FollowsTekton(Start, stages) && CallCount(Start) == 0 && Tekton.IsOwnClone(e);
      assert Tekton.FollowsTekton(Then(Start, e), stages);
    }
  }

  // ----- files that are accepted and repeat a label -----

  ghost predicate IsAcceptedAs(doc: PipelineConfig.Document, isImage: string -> bool, names: seq<string>) {
    && PipelineConfig.IsAcceptable(doc, isImage)
    && exists stages :: |stages| == |PipelineConfig.EntriesOf(doc)| && PipelineConfig.AreStagesOf(stages, PipelineConfig.EntriesOf(doc))
                        && PipelineConfig.NamesOf(stages) == names
  }

  function StageFile(names: seq<string>): PipelineConfig.Document {
    PipelineConfig.Declared(seq(|names|, i requires 0 <= i < |names| =>
      PipelineConfig.Entry(names[i], PipelineConfig.Command("true"), PipelineConfig.Unset)))
  }

  /** A label of the template, shown for a built-in step that has not started or announced for it. */
  const TEMPLATE_STAGES: seq<string> := ["building image"]

  /** A name of the Tekton path. */
  const TASK_STAGES: seq<string> := ["clone"]

  /** The placeholder of the stage behind it. */
  const PLACEHOLDER_STAGES: seq<string> := ["step 5 of 11", "x"]

  /** The loader accepts files whose labels repeat: for each of three, once its first stage has started,
      two nodes of the graph carry one label. */
  lemma AcceptedStagesRepeatALabel(
      nodes: seq<Node>, status: JobStatus, events: History<Event>, scrub: string -> string, isImage: string -> bool,
      tekton: bool, stages: seq<string>)
    requires stages == TEMPLATE_STAGES || stages == PLACEHOLDER_STAGES || (tekton && stages == TASK_STAGES)
    requires DeployTask.Follows(events, tekton, stages) && LastIndex(events) == 4
    requires var r := Run(Fresh(status), events, scrub);
             r.Stored? && r.state.rows.Keys != {} ==> IsRowGraph(nodes, r.state.status, r.state.rows, Steps.DEPLOY)
    ensures IsAcceptedAs(StageFile(stages), isImage, stages)
    ensures !NodesDiffer(nodes)
  {
    hide *;
    FileIsAccepted(isImage, stages);
    FirstStageIsRepeated(tekton, stages);
    StepsWereAnnounced(events);
    NodesDifferIff(nodes, status, events, scrub, tekton, stages);
  }

  lemma {:induction false} StepsWereAnnounced(events: History<Event>)
    requires LastIndex(events) >= 1
    ensures CallCount(events) >= 1
  {
    match events
    case Then(earlier, e) =>
      if !e.StepCall? {
        StepsWereAnnounced(earlier);
      }
  }

  lemma FirstStageIsRepeated(tekton: bool, stages: seq<string>)
    requires stages == TEMPLATE_STAGES || stages == PLACEHOLDER_STAGES || (tekton && stages == TASK_STAGES)
    ensures AreDistinct(stages) && !StagesStandOut(tekton, stages, 4)
  {
    assert PLACEHOLDER_STAGES[0] != PLACEHOLDER_STAGES[1];
    assert BuiltIn(false)[3] == "building image" && BuiltIn(true)[0] == "clone";
    assert StagePlaceholder(PLACEHOLDER_STAGES, 1) == "step 5 of 11" by {
      assert Text.Decimal(5) == "5" && Text.Decimal(1) == "1" && Text.Decimal(11) == Text.Decimal(1) + "1";
    }
    if stages == TEMPLATE_STAGES {
      assert BuiltInLabel(tekton, stages, 4, 3) == stages[0];
    } else if stages == PLACEHOLDER_STAGES {
      assert stages[0] == StagePlaceholder(stages, 1);
    } else {
      assert BuiltInLabel(tekton, stages, 4, 0) == stages[0];
    }
    assert !StandsOut(tekton, stages, 4, 0);
  }

  lemma FileIsAccepted(isImage: string -> bool, stages: seq<string>)
    requires stages in {TEMPLATE_STAGES, TASK_STAGES, PLACEHOLDER_STAGES}
    ensures IsAcceptedAs(StageFile(stages), isImage, stages)
  {
    hide PipelineConfig.Clean, PipelineConfig.IsStageName;
    ShortNamesAreClean();
    var doc := StageFile(stages);
    if |stages| == 2 {
      assert PipelineConfig.Clean(stages[0]) == stages[0];
      assert |Text.Lower(stages[0])| > 1 && |Text.Lower("x")| == 1;
    }
    var read := seq(|stages|, i requires 0 <= i < |stages| => PipelineConfig.Stage(stages[i], "true", ""));
    assert PipelineConfig.AreStagesOf(read, doc.entries);
    assert PipelineConfig.NamesOf(read) == stages;
  }

  lemma ShortNamesAreClean()
    ensures PipelineConfig.Clean("clone") == "clone" && PipelineConfig.IsStageName("clone")
    ensures PipelineConfig.Clean("building image") == "building image" && PipelineConfig.IsStageName("building image")
    ensures PipelineConfig.Clean("step 5 of 11") == "step 5 of 11" && PipelineConfig.IsStageName("step 5 of 11")
    ensures PipelineConfig.Clean("x") == "x" && PipelineConfig.IsStageName("x")
    ensures PipelineConfig.Clean("true") == "true"
  {
    hide Text.Strip;
    Text.StripOfTrimmed("clone");
    Text.StripOfTrimmed("building image");
    Text.StripOfTrimmed("step 5 of 11");
    Text.StripOfTrimmed("x");
    Text.StripOfTrimmed("true");
  }
}
