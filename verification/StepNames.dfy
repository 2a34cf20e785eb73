/** What the steps of a deploy are called on its two paths: how the independent numberings agree, and
    that every name survives being printed to the log. */
module StepNames {
  import DeployPlan
  import LogMarkers
  import PipelineConfig
  import Pipeline = TektonPipeline
  import Steps
  import Tekton = TektonPoller

  /** The names a Tekton deploy announces for a repository without stages of its own. */
  const TEKTON: seq<string> := [
    "clone",
    "secret-scan",
    "dependency-scan",
    "build",
    "pushing image to registry",
    "scan",
    "rendering + applying manifests",
    "waiting for rollout",
    "capturing live URL"]

  function BuiltIn(tekton: bool): (names: seq<string>)
    ensures |names| == 9
  {
    if tekton then TEKTON else Steps.DEPLOY
  }

  /** The name step `i` is announced under on either path. */
  function NameOf(tekton: bool, stages: seq<string>, i: nat): string
    requires 1 <= i <= 9 + |stages|
  {
    if tekton then Tekton.AnnouncedAs(stages, i - 1) else DeployPlan.StepName(stages, i)
  }

  predicate IsStagePosition(stages: seq<string>, i: nat) {
    Steps.FIXED_PREFIX < i <= Steps.FIXED_PREFIX + |stages|
  }

  /** Where step `i` stands among the built-in ones. */
  function BuiltInPosition(stages: seq<string>, i: nat): (t: nat)
    requires 1 <= i <= 9 + |stages| && !IsStagePosition(stages, i)
    ensures t < 9
  {
    if i <= Steps.FIXED_PREFIX then i - 1 else i - 1 - |stages|
  }

  /** On both paths the stages are inserted behind the fixed prefix. */
  lemma StagesAreInserted(tekton: bool, stages: seq<string>, i: nat)
    requires 1 <= i <= 9 + |stages|
    ensures IsStagePosition(stages, i) ==> NameOf(tekton, stages, i) == stages[i - 1 - Steps.FIXED_PREFIX]
    ensures !IsStagePosition(stages, i) ==> NameOf(tekton, stages, i) == BuiltIn(tekton)[BuiltInPosition(stages, i)]
  {
    hide Pipeline.StageTaskName;
  }

  // ----- the numberings agree -----

  /** The index that the Tekton numbering gives each task, and the push, is the step of the sandbox
      plan that does the same work. */
  lemma NumberingsAgree(stages: seq<string>)
    ensures DeployPlan.StepName(stages, Pipeline.IndexAt(stages, 0)) == "cloning repository"
    ensures DeployPlan.StepName(stages, Pipeline.IndexAt(stages, 1)) == "secret scan (gitleaks) + gate"
    ensures DeployPlan.StepName(stages, Pipeline.IndexAt(stages, 2)) == "dependency scan (pip-audit) + gate"
    ensures forall i :: 0 <= i < |stages| ==> IsStageStep(stages, i)
    ensures DeployPlan.StepName(stages, Pipeline.IndexAt(stages, 3 + |stages|)) == "building image"
    ensures DeployPlan.StepName(stages, Pipeline.PushIndex(stages)) == "pushing image to registry"
    ensures DeployPlan.StepName(stages, Pipeline.IndexAt(stages, 4 + |stages|)) == "trivy scan + gate"
  {
  }

  /** Stage `i` is announced at the index of its task. */
  predicate IsStageStep(stages: seq<string>, i: nat)
    requires i < |stages|
  {
    DeployPlan.StepName(stages, Pipeline.IndexAt(stages, 3 + i)) == stages[i]
  }

  lemma BuiltInNamesDiffer(tekton: bool)
    ensures forall a, b :: 0 <= a < b < 9 ==> BuiltIn(tekton)[a] != BuiltIn(tekton)[b]
  {
    Steps.DeployNamesDiffer();
    assert |TEKTON[0]| == 5 && |TEKTON[1]| == 11 && |TEKTON[2]| == 15 && |TEKTON[3]| == 5 && |TEKTON[4]| == 25;
    assert |TEKTON[5]| == 4 && |TEKTON[6]| == 30 && |TEKTON[7]| == 19 && |TEKTON[8]| == 18;
    assert TEKTON[0][0] == 'c' && TEKTON[3][0] == 'b';
  }

  // ----- every label survives the log -----

  lemma DeployNamesAreReadable(t: nat)
    requires t < 9
    ensures LogMarkers.OneLine(Steps.DEPLOY[t])
  {
    hide LogMarkers.OneLine;
    if t < 3 {
      FirstNamesAreReadable();
    } else if t < 6 {
      MiddleNamesAreReadable();
    } else {
      LastNamesAreReadable();
    }
  }

  lemma FirstNamesAreReadable()
    ensures LogMarkers.OneLine("cloning repository")
    ensures LogMarkers.OneLine("secret scan (gitleaks) + gate")
    ensures LogMarkers.OneLine("dependency scan (pip-audit) + gate")
  {
  }

  lemma MiddleNamesAreReadable()
    ensures LogMarkers.OneLine("building image")
    ensures LogMarkers.OneLine("pushing image to registry")
    ensures LogMarkers.OneLine("trivy scan + gate")
  {
  }

  lemma LastNamesAreReadable()
    ensures LogMarkers.OneLine("rendering + applying manifests")
    ensures LogMarkers.OneLine("waiting for rollout")
    ensures LogMarkers.OneLine("capturing live URL")
  {
  }

  lemma TaskNamesAreReadable()
    ensures LogMarkers.OneLine(TEKTON[0]) && LogMarkers.OneLine(TEKTON[1]) && LogMarkers.OneLine(TEKTON[2])
    ensures LogMarkers.OneLine(TEKTON[3]) && LogMarkers.OneLine(TEKTON[5])
  {
  }

  /** Every name a deploy announces, on either path, can be printed as a step marker and read back,
      if its stages' names can. */
  lemma StepNamesAreReadable(tekton: bool, stages: seq<string>, i: nat)
    requires 1 <= i <= 9 + |stages| && forall k :: 0 <= k < |stages| ==> LogMarkers.OneLine(stages[k])
    ensures LogMarkers.OneLine(NameOf(tekton, stages, i))
  {
    hide LogMarkers.OneLine, NameOf;
    StagesAreInserted(tekton, stages, i);
    if !IsStagePosition(stages, i) {
      var t := BuiltInPosition(stages, i);
      DeployNamesAreReadable(t);
      TaskNamesAreReadable();
      assert t in {4, 6, 7, 8} ==> TEKTON[t] == Steps.DEPLOY[t];
    }
  }

  /** The built-in names always can, and the loader accepts no others that cannot. */
  lemma AcceptedStepNamesAreReadable(
      doc: PipelineConfig.Document, isImage: string -> bool, stages: seq<PipelineConfig.Stage>, tekton: bool, i: nat)
    requires PipelineConfig.IsAcceptable(doc, isImage)
    requires |stages| == |PipelineConfig.EntriesOf(doc)| && PipelineConfig.AreStagesOf(stages, PipelineConfig.EntriesOf(doc))
    requires 1 <= i <= 9 + |stages|
    ensures LogMarkers.OneLine(NameOf(tekton, PipelineConfig.NamesOf(stages), i))
  {
    hide LogMarkers.OneLine, NameOf, PipelineConfig.IsAcceptable, PipelineConfig.AreStagesOf;
    PipelineConfig.AcceptedNamesAreReadable(doc, isImage, stages);
    StepNamesAreReadable(tekton, PipelineConfig.NamesOf(stages), i);
  }
}
