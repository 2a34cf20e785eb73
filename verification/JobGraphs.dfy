/** What the graph of a whole job shows: of a deploy, at any moment of its run, and of a provisioning. */
module JobGraphs {
  import opened Wrappers
  import opened Recorder
  import opened PipelineGraph
  import DeployTask
  import FinishedDeploy
  import GraphLabels
  import LogMarkers
  import Steps
  import StepNames
  import opened Text

  // ----- deploys -----

  /** At any moment of any deploy, on either path, running or over, the graph of its job names the nine
      built-in steps as long as the repository's stages are not counted; from then on it shows every
      step that has started under the name it was announced by, every stage that has not as a
      placeholder, and every other built-in step under its name in the template. */
  lemma DeployGraphIsLabelled(
      nodes: seq<Node>, job: Job, status: JobStatus, events: History<Event>, scrub: string -> string, tekton: bool,
      stages: seq<string>)
    requires IsGraphOf(nodes, job) && job.kind == Steps.Deploy
    requires DeployTask.Follows(events, tekton, stages) && CallCount(events) >= 1
    requires var r := Run(Fresh(status), events, scrub);
             r.Stored? ==> job.rows == r.state.rows && job.status == r.state.status
    ensures if FinishedDeploy.IsTotalProvisional(events, tekton) then ShowsBuiltInNames(nodes)
            else ShowsDeployNames(nodes, tekton, stages, LastIndex(events))
  {
    hide IsRowGraph, IsLogGraph, IsJobNode, DeployTask.Follows, GraphLabels.AreLabelled, Run;
    GraphLabels.GraphIsLabelled(nodes, status, events, scrub, tekton, stages);
    if !FinishedDeploy.IsTotalProvisional(events, tekton) {
      LabelsAreNames(nodes, tekton, stages, LastIndex(events));
    }
  }

  /** The labels of a deploy with `m` steps started, by name. */
  predicate ShowsDeployNames(nodes: seq<Node>, tekton: bool, stages: seq<string>, m: nat) {
    && |nodes| == 9 + |stages|
    && ShowsFixedNames(nodes, tekton, m)
    && (forall k :: 0 <= k < |stages| ==> ShowsStage(nodes, stages, m, k))
    && ShowsLaterNames(nodes, tekton, |stages|, m)
  }

  predicate ShowsFixedNames(nodes: seq<Node>, tekton: bool, m: nat)
    requires |nodes| >= 9
  {
    && nodes[0].name == (if tekton && m >= 1 then "clone" else "cloning repository")
    && nodes[1].name == (if tekton && m >= 2 then "secret-scan" else "secret scan (gitleaks) + gate")
    && nodes[2].name == (if tekton && m >= 3 then "dependency-scan" else "dependency scan (pip-audit) + gate")
  }

  predicate ShowsLaterNames(nodes: seq<Node>, tekton: bool, n: nat, m: nat)
    requires |nodes| == 9 + n
  {
    && nodes[3 + n].name == (if tekton && m >= 4 + n then "build" else "building image")
    && nodes[4 + n].name == "pushing image to registry"
    && nodes[5 + n].name == (if tekton && m >= 6 + n then "scan" else "trivy scan + gate")
    && nodes[6 + n].name == "rendering + applying manifests"
    && nodes[7 + n].name == "waiting for rollout"
    && nodes[8 + n].name == "capturing live URL"
  }

  /** A stage is shown by its name once it has started, and by its number until then. */
  predicate ShowsStage(nodes: seq<Node>, stages: seq<string>, m: nat, k: nat)
    requires k < |stages| && |nodes| == 9 + |stages|
  {
    nodes[3 + k].name ==
    if 4 + k <= m then stages[k] else "step " + Decimal(4 + k) + " of " + Decimal(9 + |stages|)
  }

  lemma LabelsAreNames(nodes: seq<Node>, tekton: bool, stages: seq<string>, m: nat)
    requires GraphLabels.AreLabelled(nodes, tekton, stages, m)
    ensures ShowsDeployNames(nodes, tekton, stages, m)
  {
    hide GraphLabels.IsLabelled, StepNames.BuiltIn, ShowsFixedNames, ShowsLaterNames, ShowsStage;
    FixedLabelsAreNames(nodes, tekton, stages, m);
    LaterLabelsAreNames(nodes, tekton, stages, m);
    forall k | 0 <= k < |stages|
      ensures ShowsStage(nodes, stages, m, k)
    {
      StageLabelIsName(nodes, tekton, stages, m, k);
    }
  }

  lemma StageLabelIsName(nodes: seq<Node>, tekton: bool, stages: seq<string>, m: nat, k: nat)
    requires GraphLabels.AreLabelled(nodes, tekton, stages, m) && k < |stages|
    ensures ShowsStage(nodes, stages, m, k)
  {
    hide GraphLabels.IsLabelled, StepNames.BuiltIn;
    LabelIs(nodes, tekton, stages, m, 4 + k);
  }

  lemma FixedLabelsAreNames(nodes: seq<Node>, tekton: bool, stages: seq<string>, m: nat)
    requires GraphLabels.AreLabelled(nodes, tekton, stages, m)
    ensures ShowsFixedNames(nodes, tekton, m)
  {
    hide GraphLabels.IsLabelled, StepNames.BuiltIn;
    BuiltInNames();
    LabelIs(nodes, tekton, stages, m, 1);
    LabelIs(nodes, tekton, stages, m, 2);
    LabelIs(nodes, tekton, stages, m, 3);
  }

  lemma LaterLabelsAreNames(nodes: seq<Node>, tekton: bool, stages: seq<string>, m: nat)
    requires GraphLabels.AreLabelled(nodes, tekton, stages, m)
    ensures ShowsLaterNames(nodes, tekton, |stages|, m)
  {
    hide GraphLabels.IsLabelled, StepNames.BuiltIn;
    BuiltInNames();
    var n := |stages|;
    LabelIs(nodes, tekton, stages, m, 4 + n);
    LabelIs(nodes, tekton, stages, m, 5 + n);
    LabelIs(nodes, tekton, stages, m, 6 + n);
    LabelIs(nodes, tekton, stages, m, 7 + n);
    LabelIs(nodes, tekton, stages, m, 8 + n);
    LabelIs(nodes, tekton, stages, m, 9 + n);
  }

  lemma BuiltInNames()
    ensures StepNames.BuiltIn(false) ==
            ["cloning repository", "secret scan (gitleaks) + gate", "dependency scan (pip-audit) + gate",
             "building image", "pushing image to registry", "trivy scan + gate",
             "rendering + applying manifests", "waiting for rollout", "capturing live URL"]
    ensures StepNames.BuiltIn(true) ==
            ["clone", "secret-scan", "dependency-scan", "build", "pushing image to registry", "scan",
             "rendering + applying manifests", "waiting for rollout", "capturing live URL"]
  {
  }

  lemma LabelIs(nodes: seq<Node>, tekton: bool, stages: seq<string>, m: nat, i: nat)
    requires GraphLabels.AreLabelled(nodes, tekton, stages, m) && 1 <= i <= 9 + |stages|
    ensures StepNames.IsStagePosition(stages, i) ==>
              nodes[i - 1].name == if i <= m then stages[i - 4] else Placeholder(i, 9 + |stages|)
    ensures !StepNames.IsStagePosition(stages, i) ==>
              nodes[i - 1].name == StepNames.BuiltIn(tekton && i <= m)[StepNames.BuiltInPosition(stages, i)]
  {
    hide StepNames.NameOf, Placeholder;
    assert GraphLabels.IsLabelled(nodes, tekton, stages, m, i);
    StepNames.StagesAreInserted(tekton, stages, i);
    StepNames.StagesAreInserted(false, stages, i);
  }

  /** The nine built-in steps, by name. */
  predicate ShowsBuiltInNames(nodes: seq<Node>) {
    && |nodes| == 9
    && nodes[0].name == "cloning repository"
    && nodes[1].name == "secret scan (gitleaks) + gate"
    && nodes[2].name == "dependency scan (pip-audit) + gate"
    && nodes[3].name == "building image"
    && nodes[4].name == "pushing image to registry"
    && nodes[5].name == "trivy scan + gate"
    && nodes[6].name == "rendering + applying manifests"
    && nodes[7].name == "waiting for rollout"
    && nodes[8].name == "capturing live URL"
  }

  /** Drawing the graph of the job that a deploy's record describes. */
  method ShowDeploy(record: JobRecord, mode: string, ghost status: JobStatus, ghost tekton: bool, ghost stages: seq<string>)
    returns (nodes: seq<Node>)
    requires record.Valid() && record.origin == Fresh(status)
    requires DeployTask.Follows(record.events, tekton, stages) && CallCount(record.events) >= 1
    ensures if FinishedDeploy.IsTotalProvisional(record.events, tekton) then ShowsBuiltInNames(nodes)
            else ShowsDeployNames(nodes, tekton, stages, LastIndex(record.events))
  {
    hide IsGraphOf, DeployTask.Follows, ShowsDeployNames, ShowsBuiltInNames, Run;
    var job := Job(Steps.Deploy, "deploy", record.status, mode, None, record.finishedAt,
                   if record.error.Some? then record.error.value else "", record.log, record.rows);
    nodes := JobGraph(job);
    DeployGraphIsLabelled(nodes, job, status, record.events, record.scrub, tekton, stages);
  }

  // ----- provisioning -----

  ghost predicate ShowsNames(nodes: seq<Node>, rows: Rows, names: seq<string>) {
    |nodes| == |names| && forall i :: 0 <= i < |nodes| && i + 1 !in rows ==> nodes[i].name == names[i]
  }

  lemma UnstartedAreNamed(nodes: seq<Node>, status: JobStatus, rows: Rows, template: seq<string>)
    requires rows.Keys != {} && IsRowGraph(nodes, status, rows, template) && RowsTotal(rows) <= |template|
    ensures ShowsNames(nodes, rows, template)
  {
    hide IsChain, Placeholder, StatusOf, ShowsRow;
    forall i | 0 <= i < |nodes| && i + 1 !in rows
      ensures nodes[i].name == template[i]
    {
      assert IsRowNode(nodes[i], i + 1, status, rows, template);
    }
  }

  /** The steps of a provisioning job that have not started are named by its total: four for virtual
      machines, two for a namespace, one for a pooled cluster. */
  lemma ProvisionGraphIsNamed(nodes: seq<Node>, job: Job)
    requires IsGraphOf(nodes, job) && job.kind == Steps.Provision && job.rows.Keys != {}
    ensures RowsTotal(job.rows) == 4 ==>
              ShowsNames(nodes, job.rows, ["terraform init", "terraform apply", "capturing node IPs", "ansible-playbook configure"])
    ensures RowsTotal(job.rows) == 2 ==>
              ShowsNames(nodes, job.rows,
                         ["rendering namespace, quota, limits and network policy", "applying to the shared cluster"])
    ensures RowsTotal(job.rows) == 1 ==> ShowsNames(nodes, job.rows, ["claiming a pre-warmed cluster"])
  {
    hide IsRowGraph, IsLogGraph, IsJobNode, ShowsNames;
    var total := RowsTotal(job.rows);
    if total == 4 || total == 2 || total == 1 {
      UnstartedAreNamed(nodes, job.status, job.rows, Steps.Template(job.kind, total, job.mode));
    }
  }

  /** With any other total the project's mode decides which names those are; a mode without a template
      names none. */
  lemma ProvisionGraphByMode(nodes: seq<Node>, job: Job)
    requires IsGraphOf(nodes, job) && job.kind == Steps.Provision && job.rows.Keys != {}
    requires RowsTotal(job.rows) !in {1, 2, 4}
    ensures job.mode == "vm" ==>
              IsRowGraph(nodes, job.status, job.rows,
                         ["terraform init", "terraform apply", "capturing node IPs", "ansible-playbook configure"])
    ensures job.mode == "namespace" ==>
              IsRowGraph(nodes, job.status, job.rows,
                         ["rendering namespace, quota, limits and network policy", "applying to the shared cluster"])
    ensures job.mode == "pooled" ==> IsRowGraph(nodes, job.status, job.rows, ["claiming a pre-warmed cluster"])
    ensures job.mode !in {"vm", "namespace", "pooled"} ==> IsRowGraph(nodes, job.status, job.rows, [])
  {
    hide IsRowGraph, IsLogGraph, IsJobNode;
    assert |"vm"| == 2 && |"namespace"| == 9 && |"pooled"| == 6;
  }

  /** Jobs of other kinds have no template: a step without a row is shown by its number alone. */
  lemma OtherGraphIsNumbered(nodes: seq<Node>, job: Job)
    requires IsGraphOf(nodes, job) && job.kind == Steps.Other && job.rows.Keys != {}
    ensures |nodes| == RowsTotal(job.rows)
    ensures forall i :: 0 <= i < |nodes| && i + 1 !in job.rows ==> nodes[i].name == Placeholder(i + 1, RowsTotal(job.rows))
  {
    hide IsChain, Placeholder, StatusOf, ShowsRow;
    forall i | 0 <= i < |nodes| && i + 1 !in job.rows
      ensures nodes[i].name == Placeholder(i + 1, RowsTotal(job.rows))
    {
      assert IsRowNode(nodes[i], i + 1, job.status, job.rows, []);
    }
  }

  // ----- jobs without rows -----

  /** Without rows the log decides, over the same templates. */
  lemma LogGraphTemplate(nodes: seq<Node>, job: Job)
    requires IsGraphOf(nodes, job) && job.rows.Keys == {} && LogMarkers.Stages(job.log).Keys != {}
    ensures var stages := LogMarkers.Stages(job.log);
            && (job.kind == Steps.Deploy ==>
                  IsLogGraph(nodes, job.status, stages,
                             ["cloning repository", "secret scan (gitleaks) + gate", "dependency scan (pip-audit) + gate",
                              "building image", "pushing image to registry", "trivy scan + gate",
                              "rendering + applying manifests", "waiting for rollout", "capturing live URL"]))
            && (job.kind == Steps.Provision && DeclaredTotal(stages) == 4 ==>
                  IsLogGraph(nodes, job.status, stages,
                             ["terraform init", "terraform apply", "capturing node IPs", "ansible-playbook configure"]))
            && (job.kind == Steps.Provision && DeclaredTotal(stages) == 2 ==>
                  IsLogGraph(nodes, job.status, stages,
                             ["rendering namespace, quota, limits and network policy", "applying to the shared cluster"]))
            && (job.kind == Steps.Provision && DeclaredTotal(stages) == 1 ==>
                  IsLogGraph(nodes, job.status, stages, ["claiming a pre-warmed cluster"]))
  {
    hide IsRowGraph, IsLogGraph, IsJobNode, LogMarkers.Stages;
  }
}
