/** The deploy task: clone, gates, build, push, image scan and rollout, on the sandbox path or
    through a Tekton pipeline, with every tool's outcome supplied from outside.

    The predicates over `Tools` say, without reference to the order of the code, what it takes
    for a deploy to be shipped and what it takes for it to be blocked; the methods follow the
    task and are proved to agree with them. */
module DeployTask {
  import opened Wrappers
  import opened Recorder
  import opened Parsers
  import DeployPlan
  import P = PipelineGraph
  import Steps
  import Tekton = TektonPoller
  import Pipeline = TektonPipeline
  import Status = TektonStatus
  import Text

  datatype DeployStatus = Queued | Building | Scanning | Deploying | Live | Blocked | Broken

  class Deployment {
    var status: DeployStatus
    var imageRef: Option<string>
    var liveUrl: Option<string>

    constructor (status: DeployStatus)
      ensures this.status == status
    {
      this.status, imageRef, liveUrl := status, None, None;
    }
  }

  // ----- what the outside world answers -----

  datatype ToolRun = ToolRaised(message: string) | Exited(code: int, timedOut: bool, lines: seq<string>)

  datatype ScanRun<+R> = ScanRaised(message: string) | Scanned(code: int, timedOut: bool, report: R, lines: seq<string>)

  datatype Dockerfile = Present | Generated | Missing

  datatype Tools = Tools(
    clone: ToolRun,
    gitleaks1: ScanRun<GitleaksReport>,
    gitleaks2: ScanRun<GitleaksReport>,
    hasRequirements: bool,
    pipAudit1: ScanRun<PipReport>,
    pipAudit2: ScanRun<PipReport>,
    stages: Result<seq<string>>,
    stageRuns: nat -> ToolRun,
    dockerfile: Dockerfile,
    build: ToolRun,
    push: ToolRun,
    trivy1: ScanRun<TrivyReport>,
    trivy2: ScanRun<TrivyReport>,
    pipelineStart: Result<string>,
    polls: seq<Tekton.Poll>,
    render: Result<string>,
    apply: Result<string>,
    rollout: ToolRun,
    imageRef: string,
    liveUrl: string,
    baseScore: string -> real)

  // ----- what it takes to pass each gate -----

  predicate ToolOk(run: ToolRun) {
    run.Exited? && !run.timedOut && run.code == 0
  }

  predicate ScanDone<R>(run: ScanRun<R>, codes: set<int>) {
    run.Scanned? && !run.timedOut && run.code in codes
  }

  /** A scanner that ran but did not finish is given a second chance. */
  function LastScan<R>(first: ScanRun<R>, second: ScanRun<R>, codes: set<int>): ScanRun<R> {
    if first.Scanned? && !ScanDone(first, codes) then second else first
  }

  const AUDIT_CODES: set<int> := {0, 1}
  const IMAGE_CODES: set<int> := {0}

  function StagesOf(t: Tools): seq<string> {
    if t.stages.Success? then t.stages.value else []
  }

  /** The report lists no leak. */
  predicate HasNoLeak(report: GitleaksReport) {
    || report.NotJson?
    || (report.Leaks? && report.leaks == [])
    || (report.Wrapped? && (report.wrapped.Absent? || (report.wrapped.List? && report.wrapped.items == [])))
  }

  predicate HasLeak(report: GitleaksReport) {
    || (report.Leaks? && report.leaks != [])
    || (report.Wrapped? && report.wrapped.List? && report.wrapped.items != [])
  }

  predicate SecretsClean(t: Tools) {
    var unfinished := t.gitleaks1.Scanned? && (t.gitleaks1.timedOut || t.gitleaks1.code !in {0, 1});
    var run := if unfinished then t.gitleaks2 else t.gitleaks1;
    run.Scanned? && !run.timedOut && run.code in {0, 1} && HasNoLeak(run.report)
  }

  predicate SecretsBlocked(t: Tools) {
    var unfinished := t.gitleaks1.Scanned? && (t.gitleaks1.timedOut || t.gitleaks1.code !in {0, 1});
    var run := if unfinished then t.gitleaks2 else t.gitleaks1;
    run.Scanned? && (run.timedOut || run.code !in {0, 1} || HasLeak(run.report))
  }

  /** Every dependency of the report can be read. */
  predicate IsReadable(report: PipReport) {
    || report.PipNotJson?
    || (report.PipDict? && report.dependencies.Absent?)
    || (report.PipDict? && report.dependencies.List?
        && forall k :: 0 <= k < |report.dependencies.items| ==> !report.dependencies.items[k].vulns.Null?)
  }

  /** Some dependency of the report lists an advisory. */
  predicate HasAdvisory(report: PipReport) {
    && report.PipDict? && report.dependencies.List?
    && exists k :: 0 <= k < |report.dependencies.items| && ListsAdvisory(report.dependencies.items[k])
  }

  predicate ListsAdvisory(dep: Dependency) {
    dep.vulns.List? && dep.vulns.items != []
  }

  predicate DependenciesClean(t: Tools) {
    t.hasRequirements ==>
      var unfinished := t.pipAudit1.Scanned? && (t.pipAudit1.timedOut || t.pipAudit1.code !in {0, 1});
      var run := if unfinished then t.pipAudit2 else t.pipAudit1;
      run.Scanned? && !run.timedOut && run.code in {0, 1} && IsReadable(run.report) && !HasAdvisory(run.report)
  }

  predicate DependenciesBlocked(t: Tools) {
    && t.hasRequirements
    && var unfinished := t.pipAudit1.Scanned? && (t.pipAudit1.timedOut || t.pipAudit1.code !in {0, 1});
       var run := if unfinished then t.pipAudit2 else t.pipAudit1;
       run.Scanned? && (run.timedOut || run.code !in {0, 1} || (IsReadable(run.report) && HasAdvisory(run.report)))
  }

  /** The report says what was found: it has a list of results, and every list in it can be read. */
  predicate IsReadableImage(report: TrivyReport) {
    && report.TrivyDict? && report.results.List?
    && forall i :: 0 <= i < |report.results.items| ==> !report.results.items[i].vulnerabilities.Null?
  }

  predicate ImageClean(t: Tools) {
    var unfinished := t.trivy1.Scanned? && (t.trivy1.timedOut || t.trivy1.code != 0);
    var run := if unfinished then t.trivy2 else t.trivy1;
    && run.Scanned? && !run.timedOut && run.code == 0 && IsReadableImage(run.report)
    && !Reports(run.report, "critical") && !Reports(run.report, "high")
  }

  predicate ImageBlocked(t: Tools) {
    var unfinished := t.trivy1.Scanned? && (t.trivy1.timedOut || t.trivy1.code != 0);
    var run := if unfinished then t.trivy2 else t.trivy1;
    run.Scanned? && (run.timedOut || run.code != 0 || !run.report.TrivyDict? || run.report.results.Absent?
                     || (IsReadableImage(run.report) && (Reports(run.report, "critical") || Reports(run.report, "high"))))
  }

  lemma LeaksAreListed(report: GitleaksReport)
    ensures HasNoLeak(report) <==> ListedLeaks(report) == Some([])
    ensures HasLeak(report) <==> ListedLeaks(report).Some? && ListedLeaks(report) != Some([])
    ensures ListedLeaks(report).None? <==> report.Scalar? || (report.Wrapped? && report.wrapped.Null?)
  {
  }

  lemma AdvisoriesAreListed(report: PipReport)
    ensures IsReadable(report) <==> !PipRaises(report)
    ensures HasAdvisory(report) <==> exists k :: 0 <= k < |DependenciesOf(report)| && PipVulnsOf(DependenciesOf(report)[k]) != []
  {
    var deps := DependenciesOf(report);
    assert forall k :: 0 <= k < |deps| ==> (ListsAdvisory(deps[k]) <==> PipVulnsOf(deps[k]) != []);
  }

  lemma ImagesAreReadable(report: TrivyReport)
    ensures IsReadableImage(report) <==> IsUsableTrivyReport(report) && !TrivyRaises(report)
    ensures IsUsableTrivyReport(report) <==> report.TrivyDict? && !report.results.Absent?
  {
    if report.TrivyDict? && report.results.List? {
      assert ResultsOf(report) == report.results.items;
    }
  }

  predicate StagesPass(t: Tools) {
    t.stages.Success? && forall i :: 0 <= i < |t.stages.value| ==> ToolOk(t.stageRuns(i))
  }

  // ----- what it takes to ship, and to be blocked -----

  predicate SandboxReachesBuild(t: Tools) {
    ToolOk(t.clone) && SecretsClean(t) && DependenciesClean(t) && StagesPass(t) && t.dockerfile != Missing
  }

  predicate SandboxBuilds(t: Tools) {
    SandboxReachesBuild(t) && ToolOk(t.build) && ToolOk(t.push) && ImageClean(t)
  }

  predicate SandboxBlocks(t: Tools) {
    && ToolOk(t.clone)
    && (SecretsBlocked(t)
        || (SecretsClean(t) && DependenciesBlocked(t))
        || (SandboxReachesBuild(t) && ToolOk(t.build) && ToolOk(t.push) && ImageBlocked(t)))
  }

  predicate TektonReachesBuild(t: Tools) {
    ToolOk(t.clone) && t.stages.Success? && t.dockerfile != Missing && t.pipelineStart.Success?
  }

  ghost predicate TektonBuilds(t: Tools) {
    TektonReachesBuild(t) && Tekton.EndedTrue(t.polls)
  }

  /** Of a failed reading, the first failed task is the image scan. */
  predicate FailsAtScan(poll: Tekton.Poll, stages: seq<string>)
    requires poll.Reading?
  {
    && Status.TaskSays(poll.runs, "scan", P.NodeStatus.Failed)
    && forall p :: 0 <= p < 4 + |stages| ==> !Status.TaskSays(poll.runs, Pipeline.TaskName(stages, p), P.NodeStatus.Failed)
  }

  predicate TektonBlocks(t: Tools) {
    var e := Tekton.EndOf(t.polls, 0);
    && TektonReachesBuild(t)
    && e < |t.polls| && t.polls[e].Reading?
    && Status.SaysFailed(t.polls[e].run)
    && FailsAtScan(t.polls[e], StagesOf(t))
  }

  predicate Ships(t: Tools) {
    t.render.Success? && t.apply.Success? && t.rollout.Exited? && t.rollout.code == 0
  }

  ghost predicate Builds(t: Tools, tekton: bool) {
    if tekton then TektonBuilds(t) else SandboxBuilds(t)
  }

  predicate Blocks(t: Tools, tekton: bool) {
    if tekton then TektonBlocks(t) else SandboxBlocks(t)
  }

  predicate ReachesBuild(t: Tools, tekton: bool) {
    if tekton then TektonReachesBuild(t) else SandboxReachesBuild(t)
  }

  /** A gate that refuses is never a gate that passes, and nothing is shipped past a refusal. */
  lemma BlockedIsNotBuilt(t: Tools, tekton: bool)
    ensures !(Blocks(t, tekton) && Builds(t, tekton))
    ensures Builds(t, tekton) ==> ReachesBuild(t, tekton)
    ensures !(SecretsBlocked(t) && SecretsClean(t))
    ensures !(DependenciesBlocked(t) && DependenciesClean(t))
    ensures !(ImageBlocked(t) && ImageClean(t))
  {
    hide IsReadable, HasAdvisory, Reports, FailsAtScan;
    hide Status.SaysTrue, Status.SaysFailed, Status.SaysCancelled, Status.SaysRunning, Status.SaysPending;
    hide Tekton.EndedTrue;
    Tekton.EndedTrueIff(t.polls);
    var e := Tekton.EndOf(t.polls, 0);
    if e < |t.polls| && t.polls[e].Reading? && Status.SaysTrue(t.polls[e].run) {
      Status.OneIsSaid(t.polls[e].run, P.NodeStatus.Succeeded);
    }
  }

  // ----- the record a deploy keeps -----

  /** The job's record has followed its plan for `m` steps and is not over. On the Tekton path
      the host's own clone comes first and is not counted. */
  ghost predicate OnTrack(job: JobRecord, tekton: bool, stages: seq<string>, m: nat)
    reads job
  {
    && job.Valid() && job.origin.rows == map[] && !IsOver(job.events)
    && (if tekton then Tekton.FollowsTekton(job.events, stages) && CallCount(job.events) == m + 1
        else DeployPlan.FollowsPlan(job.events, stages) && CallCount(job.events) == m)
  }

  /** The step calls of a run, over or not, are those of its path's plan. */
  predicate Follows(events: History<Event>, tekton: bool, stages: seq<string>) {
    if tekton then Tekton.FollowsTekton(events, stages) else DeployPlan.FollowsPlan(events, stages)
  }

  function Reached(tekton: bool, m: nat): nat {
    if tekton && m == 0 then 1 else m
  }

  lemma TrackShape(job: JobRecord, tekton: bool, stages: seq<string>, m: nat)
    requires OnTrack(job, tekton, stages, m)
    ensures Linear(job.rows, Reached(tekton, m)) && LastIndex(job.events) == Reached(tekton, m)
    ensures Disciplined(job.events)
  {
    hide DeployPlan.StepName, Tekton.AnnouncedAs;
    if tekton {
      Tekton.TektonIsDisciplined(job.events, stages);
    } else {
      DeployPlan.PlanIsDisciplined(job.events, stages);
    }
    DisciplinedRunShape(job.origin, job.events, job.scrub);
  }

  lemma {:induction false} OverwritesKeepPlan(before: History<Event>, after: History<Event>, stages: seq<string>)
    requires OnlyOverwrites(before, after) && DeployPlan.FollowsPlan(before, stages)
    ensures DeployPlan.FollowsPlan(after, stages)
    decreases after
  {
    if after != before {
      OverwritesKeepPlan(before, after.before, stages);
    }
  }

  /** Others may write to the job's status at any time before it is over: every write of the task is
      preceded by any number of theirs. */
  method OthersWrite(job: JobRecord, ghost tekton: bool, ghost stages: seq<string>, ghost m: nat)
    requires OnTrack(job, tekton, stages, m)
    modifies job
    ensures OnTrack(job, tekton, stages, m)
  {
    hide DeployPlan.FollowsPlan, Tekton.FollowsTekton, Run;
    ghost var before := job.events;
    job.OthersWrite();
    OverwritesAnnounceNothing(before, job.events);
    if tekton {
      Tekton.OverwritesKeepTekton(before, job.events, stages);
    } else {
      OverwritesKeepPlan(before, job.events, stages);
    }
  }

  /** A step at its place in the plan. It never raises. */
  method Announce(job: JobRecord, index: nat, total: nat, name: string, now: int,
                  ghost tekton: bool, ghost stages: seq<string>, ghost m: nat)
    requires OnTrack(job, tekton, stages, m) && m < 9 + |stages|
    requires index == m + 1
    requires tekton ==> total == 9 + |stages| && name == Tekton.AnnouncedAs(stages, m)
    requires !tekton ==> total == DeployPlan.StepTotal(stages, m + 1) && name == DeployPlan.StepName(stages, m + 1)
    modifies job
    ensures OnTrack(job, tekton, stages, m + 1)
  {
    hide DeployPlan.StepName, Tekton.AnnouncedAs, DeployPlan.StepTotal, Apply, Run, Linear, Disciplined;
    OthersWrite(job, tekton, stages, m);
    TrackShape(job, tekton, stages, m);
    StepKeepsLinear(job.State(), Reached(tekton, m), index, total, name, now, now, job.scrub);
    var raised := job.Step(index, total, name, now, now);
  }

  method Note(job: JobRecord, text: string, ghost tekton: bool, ghost stages: seq<string>, ghost m: nat)
    requires OnTrack(job, tekton, stages, m)
    modifies job
    ensures OnTrack(job, tekton, stages, m)
  {
    OthersWrite(job, tekton, stages, m);
    job.AppendLog(text);
  }

  method Stream(job: JobRecord, lines: seq<string>, ghost tekton: bool, ghost stages: seq<string>, ghost m: nat)
    requires OnTrack(job, tekton, stages, m)
    modifies job
    ensures OnTrack(job, tekton, stages, m)
  {
    hide OnTrack;
    for i := 0 to |lines|
      invariant OnTrack(job, tekton, stages, m)
    {
      Note(job, lines[i], tekton, stages, m);
    }
  }

  /** Runs a tool whose output goes to the job log, and raises unless it exited 0 in time. */
  method RunTool(job: JobRecord, run: ToolRun, ghost tekton: bool, ghost stages: seq<string>, ghost m: nat)
    returns (r: Result<string>)
    requires OnTrack(job, tekton, stages, m)
    modifies job
    ensures OnTrack(job, tekton, stages, m)
    ensures r.Success? <==> ToolOk(run)
  {
    hide OnTrack;
    if run.ToolRaised? {
      return Raised(run.message);
    }
    Stream(job, run.lines, tekton, stages, m);
    if run.timedOut {
      return Raised("command timed out");
    }
    if run.code != 0 {
      return Raised("command exited non-zero");
    }
    return Success("");
  }

  // ----- the gates -----

  /** A scan, and a second one if the first did not finish. What the scanner prints goes to the
      job log, except for the image scan, whose report would fill it. */
  method ScanTwice<R>(job: JobRecord, first: ScanRun<R>, second: ScanRun<R>, codes: set<int>, streamed: bool,
                      ghost tekton: bool, ghost stages: seq<string>, ghost m: nat)
    returns (run: ScanRun<R>)
    requires OnTrack(job, tekton, stages, m)
    modifies job
    ensures OnTrack(job, tekton, stages, m)
    ensures run == LastScan(first, second, codes)
  {
    hide OnTrack;
    run := first;
    if run.Scanned? {
      if streamed {
        Stream(job, run.lines, tekton, stages, m);
      }
      if run.timedOut || run.code !in codes {
        Note(job, "scanner did not finish, retrying once", tekton, stages, m);
        run := second;
        if run.Scanned? && streamed {
          Stream(job, run.lines, tekton, stages, m);
        }
      }
    }
  }

  method SecretScanGate(job: JobRecord, dep: Deployment, t: Tools, ghost stages: seq<string>, ghost m: nat)
    returns (r: Result<string>)
    requires OnTrack(job, false, stages, m)
    modifies job, dep`status
    ensures OnTrack(job, false, stages, m)
    ensures r.Success? <==> SecretsClean(t)
    ensures dep.status == if SecretsBlocked(t) then Blocked else old(dep.status)
  {
    hide OnTrack, IsHistogram, HasLeak, HasNoLeak, ListedLeaks, TellsLeak, IsLeakList;
    var run := ScanTwice(job, t.gitleaks1, t.gitleaks2, AUDIT_CODES, true, false, stages, m);
    if run.ScanRaised? {
      return Raised(run.message);
    }
    LeaksAreListed(run.report);
    if run.timedOut || run.code !in AUDIT_CODES {
      dep.status := Blocked;
      return Raised("checkout could not be scanned for secrets");
    }
    var parsed := ParseGitleaks(run.report);
    if parsed.Raised? {
      return Raised(parsed.message);
    }
    SummaryIsTotal(parsed.value);
    TotalIsNumberOfFindings(parsed.value);
    var count := Total(parsed.value.summary);
    if count > 0 {
      dep.status := Blocked;
      return Raised("gitleaks found committed secrets");
    }
    Note(job, "gitleaks: no committed secrets found", false, stages, m);
    return Success("");
  }

  lemma SummaryIsTotal(parsed: Parsed)
    requires IsHistogram(parsed.summary, parsed.findings)
    ensures forall s: Severity :: s in parsed.summary
  {
  }

  /** The number the gate looks at: all severities together. */
  method AdvisoryTotal(report: PipReport, baseScore: string -> real) returns (r: Result<nat>)
    ensures r.Raised? <==> !IsReadable(report)
    ensures r.Success? ==> (r.value > 0 <==> HasAdvisory(report))
  {
    hide IsHistogram, IsFirstSeen, PipRaises, IsReadable, HasAdvisory, Advisories, DependenciesOf, PipVulnsOf;
    AdvisoriesAreListed(report);
    var parsed := ParsePipAudit(report, baseScore);
    if parsed.Raised? {
      return Raised(parsed.message);
    }
    ghost var deps := DependenciesOf(report);
    SummaryIsTotal(parsed.value);
    PipGateCountsDistinct(Advisories(deps, |deps|, baseScore), parsed.value);
    AdvisoriesEmpty(deps, |deps|, baseScore);
    return Success(Total(parsed.value.summary));
  }

  method DependencyScanGate(job: JobRecord, dep: Deployment, t: Tools, ghost stages: seq<string>, ghost m: nat)
    returns (r: Result<string>)
    requires OnTrack(job, false, stages, m)
    modifies job, dep`status
    ensures OnTrack(job, false, stages, m)
    ensures r.Success? <==> DependenciesClean(t)
    ensures dep.status == if DependenciesBlocked(t) then Blocked else old(dep.status)
  {
    hide OnTrack, IsReadable, HasAdvisory;
    if !t.hasRequirements {
      Note(job, "pip-audit: no requirements.txt found", false, stages, m);
      return Success("");
    }
    var run := ScanTwice(job, t.pipAudit1, t.pipAudit2, AUDIT_CODES, true, false, stages, m);
    if run.ScanRaised? {
      return Raised(run.message);
    }
    if run.timedOut || run.code !in AUDIT_CODES {
      dep.status := Blocked;
      return Raised("dependencies could not be scanned");
    }
    var gate := AdvisoryTotal(run.report, t.baseScore);
    if gate.Raised? {
      return Raised(gate.message);
    }
    Note(job, "pip-audit: summary", false, stages, m);
    if gate.value > 0 {
      dep.status := Blocked;
      return Raised("pip-audit found known-vulnerable pinned dependencies");
    }
    return Success("");
  }

  method ImageScanGate(job: JobRecord, dep: Deployment, t: Tools, ghost stages: seq<string>, ghost m: nat)
    returns (r: Result<string>)
    requires OnTrack(job, false, stages, m)
    modifies job, dep`status, dep`imageRef
    ensures OnTrack(job, false, stages, m)
    ensures r.Success? <==> ImageClean(t)
    ensures dep.status == if ImageBlocked(t) then Blocked else old(dep.status)
    ensures ImageBlocked(t) ==> dep.imageRef == Some(t.imageRef)
  {
    hide OnTrack, IsHistogram, TrivyRaises, TellAll, IsReadableImage, IsUsableTrivyReport, Reports;
    var run := ScanTwice(job, t.trivy1, t.trivy2, IMAGE_CODES, false, false, stages, m);
    if run.ScanRaised? {
      return Raised(run.message);
    }
    ImagesAreReadable(run.report);
    if run.timedOut || run.code !in IMAGE_CODES {
      dep.status, dep.imageRef := Blocked, Some(t.imageRef);
      return Raised("image could not be scanned");
    }
    if !IsUsableTrivyReport(run.report) {
      dep.status, dep.imageRef := Blocked, Some(t.imageRef);
      return Raised("trivy produced no readable report");
    }
    var parsed := ParseTrivy(run.report);
    if parsed.Raised? {
      return Raised(parsed.message);
    }
    TrivyGateMeansClean(run.report, parsed.value);
    var gate := parsed.value.summary[Critical] + parsed.value.summary[High];
    Note(job, "trivy: summary", false, stages, m);
    if gate > 0 {
      dep.status, dep.imageRef := Blocked, Some(t.imageRef);
      return Raised("image blocked");
    }
    return Success("");
  }

  // ----- the sandbox path -----

  lemma TrackBeforeStages(job: JobRecord, stages: seq<string>, m: nat)
    requires OnTrack(job, false, [], m) && m <= Steps.FIXED_PREFIX
    ensures OnTrack(job, false, stages, m)
  {
    DeployPlan.PlanPrefixIsShared(job.events, stages);
  }

  /** Clone and the two source gates: the steps before the repository's own stages are known. */
  method CheckSource(job: JobRecord, dep: Deployment, t: Tools, now: int)
    returns (r: Result<string>, ghost m: nat)
    requires OnTrack(job, false, [], 0)
    modifies job, dep`status
    ensures 1 <= m <= 3 && OnTrack(job, false, [], m)
    ensures r.Success? <==> ToolOk(t.clone) && SecretsClean(t) && DependenciesClean(t)
    ensures r.Success? ==> m == 3
    ensures dep.status ==
            if ToolOk(t.clone) && (SecretsBlocked(t) || (SecretsClean(t) && DependenciesBlocked(t))) then Blocked
            else old(dep.status)
  {
    hide OnTrack, SecretsClean, SecretsBlocked, DependenciesClean, DependenciesBlocked;
    BlockedIsNotBuilt(t, false);
    Announce(job, 1, 9, "cloning repository", now, false, [], 0);
    m := 1;
    r := RunTool(job, t.clone, false, [], 1);
    if r.Raised? {
      return;
    }
    Announce(job, 2, 9, "secret scan (gitleaks) + gate", now, false, [], 1);
    m := 2;
    r := SecretScanGate(job, dep, t, [], 2);
    if r.Raised? {
      return;
    }
    Announce(job, 3, 9, "dependency scan (pip-audit) + gate", now, false, [], 2);
    m := 3;
    r := DependencyScanGate(job, dep, t, [], 3);
  }

  /** The repository's own stages, one step each; the first that fails ends the deploy. */
  method RunStages(job: JobRecord, t: Tools, names: seq<string>, now: int) returns (r: Result<string>, ghost m: nat)
    requires OnTrack(job, false, names, 3)
    modifies job
    ensures 3 <= m <= 3 + |names| && OnTrack(job, false, names, m)
    ensures r.Success? <==> forall i :: 0 <= i < |names| ==> ToolOk(t.stageRuns(i))
    ensures r.Success? ==> m == 3 + |names|
  {
    hide OnTrack;
    m := 3;
    for i := 0 to |names|
      invariant m == 3 + i && OnTrack(job, false, names, m)
      invariant forall j :: 0 <= j < i ==> ToolOk(t.stageRuns(j))
    {
      Announce(job, 4 + i, 9 + |names|, names[i], now, false, names, 3 + i);
      m := 4 + i;
      r := RunTool(job, t.stageRuns(i), false, names, m);
      if r.Raised? {
        return;
      }
    }
    r := Success("");
  }

  /** Build, push and image scan. */
  method BuildImage(job: JobRecord, dep: Deployment, t: Tools, names: seq<string>, now: int)
    returns (r: Result<string>, ghost m: nat)
    requires OnTrack(job, false, names, 3 + |names|)
    modifies job, dep`status, dep`imageRef
    ensures 4 + |names| <= m <= 6 + |names| && OnTrack(job, false, names, m)
    ensures r.Success? <==> ToolOk(t.build) && ToolOk(t.push) && ImageClean(t)
    ensures r.Success? ==> m == 6 + |names|
    ensures dep.status == Blocked <==> ToolOk(t.build) && ToolOk(t.push) && ImageBlocked(t)
    ensures dep.status in {Building, Scanning, Blocked}
  {
    hide OnTrack, ImageClean, ImageBlocked;
    ghost var n := |names|;
    dep.status := Building;
    Announce(job, |names| + 4, 9 + |names|, "building image", now, false, names, 3 + n);
    m := 4 + n;
    r := RunTool(job, t.build, false, names, m);
    if r.Raised? {
      return;
    }
    Announce(job, |names| + 5, 9 + |names|, "pushing image to registry", now, false, names, 4 + n);
    m := 5 + n;
    r := RunTool(job, t.push, false, names, m);
    if r.Raised? {
      return;
    }
    Announce(job, |names| + 6, 9 + |names|, "trivy scan + gate", now, false, names, 5 + n);
    m := 6 + n;
    dep.status := Scanning;
    r := ImageScanGate(job, dep, t, names, m);
  }

  /** What a build leaves the deployment's status at, on either path. */
  ghost predicate LeftAt(status: DeployStatus, before: DeployStatus, t: Tools, tekton: bool) {
    && (Blocks(t, tekton) ==> status == Blocked)
    && (!Blocks(t, tekton) && !ReachesBuild(t, tekton) ==> status == before)
    && (!Blocks(t, tekton) && ReachesBuild(t, tekton) ==> status == Building || status == Scanning)
  }

  method SandboxBuild(job: JobRecord, dep: Deployment, t: Tools, now: int) returns (r: Result<string>, ghost m: nat)
    requires OnTrack(job, false, [], 0)
    modifies job, dep`status, dep`imageRef
    ensures 1 <= m <= 6 + |StagesOf(t)| && OnTrack(job, false, StagesOf(t), m)
    ensures r.Success? <==> SandboxBuilds(t)
    ensures r.Success? ==> m == 6 + |StagesOf(t)|
    ensures LeftAt(dep.status, old(dep.status), t, false)
  {
    hide OnTrack, SecretsClean, SecretsBlocked, DependenciesClean, DependenciesBlocked, ImageClean, ImageBlocked;
    BlockedIsNotBuilt(t, false);
    r, m := CheckSource(job, dep, t, now);
    TrackBeforeStages(job, StagesOf(t), m);
    if r.Raised? {
      return;
    }
    if t.stages.Raised? {
      return Raised(t.stages.message), m;
    }
    var names := t.stages.value;
    if names != [] {
      Note(job, ".platform.yml declares extra stages", false, names, 3);
    }
    r, m := RunStages(job, t, names, now);
    if r.Raised? {
      return;
    }
    if t.dockerfile == Missing {
      return Raised("no Dockerfile at the root of the repository"), m;
    }
    if t.dockerfile == Generated {
      Note(job, "no Dockerfile found, generated one", false, names, m);
    }
    r, m := BuildImage(job, dep, t, names, now);
  }

  // ----- the Tekton path -----

  /** The numbering and labels that the poller is given. */
  method MakeReporter(names: seq<string>) returns (reporter: Tekton.Reporter)
    requires |Text.Decimal(|names|)| <= Pipeline.MAX_DIGITS
    ensures fresh(reporter) && reporter.stages == names && reporter.due == 0
    ensures reporter.Numbered() && reporter.SeenIsAnnounced()
  {
    hide Pipeline.TaskName, Pipeline.StageTaskName, Text.Decimal;
    var indexOf := Pipeline.StepIndices(names);
    var labels: map<string, string> := map[];
    Pipeline.TaskNamesDistinct(names);
    for i := 0 to |names|
      invariant forall p :: 0 <= p < 5 + |names| ==> (Pipeline.TaskName(names, p) in labels <==> 3 <= p < 3 + i)
      invariant forall p :: 3 <= p < 3 + i ==> labels[Pipeline.TaskName(names, p)] == names[p - 3]
    {
      Pipeline.StageTaskAt(names, i);
      labels := labels[Pipeline.StageTaskName(i + 1, names[i]) := names[i]];
    }
    reporter := new Tekton.Reporter(names, 9 + |names|, indexOf, labels);
  }

  lemma ReporterTracks(reporter: Tekton.Reporter, job: JobRecord)
    ensures reporter.Tracks(job) <==> OnTrack(job, true, reporter.stages, reporter.due)
  {
  }

  /** One PipelineRun, with the step rows kept up to date while it runs. */
  method TektonBuildAndScan(job: JobRecord, dep: Deployment, t: Tools, names: seq<string>, now: int)
    returns (r: Result<string>, ghost m: nat)
    requires OnTrack(job, true, names, 0)
    requires |Text.Decimal(|names|)| <= Pipeline.MAX_DIGITS
    requires forall i :: 0 <= i < |t.polls| ==> Tekton.IsChainPoll(t.polls[i], names)
    requires t.stages == Success(names) && ToolOk(t.clone) && t.dockerfile != Missing
    modifies job, dep`status, dep`imageRef
    ensures m <= 6 + |names| && OnTrack(job, true, names, m)
    ensures r.Success? <==> TektonBuilds(t)
    ensures r.Success? ==> m == 6 + |names|
    ensures LeftAt(dep.status, old(dep.status), t, true)
  {
    hide OnTrack, Tekton.IsChainPoll, Text.Decimal, FailsAtScan, Tekton.ShowsReading, Tekton.EndedTrue;
    hide Status.SaysTrue, Status.SaysFailed, Status.SaysCancelled, Status.SaysRunning, Status.SaysPending, Status.IsMessage;
    var reporter := MakeReporter(names);
    m := 0;
    if t.pipelineStart.Raised? {
      return Raised(t.pipelineStart.message), m;
    }
    Note(job, "Tekton PipelineRun started", true, names, 0);
    dep.status := Building;
    ReporterTracks(reporter, job);
    var result := Tekton.Wait(reporter, job, t.polls, now);
    ReporterTracks(reporter, job);
    m := reporter.due;
    ReporterBound(reporter);
    if result.Raised? {
      return Raised(result.message), m;
    }
    Status.OneIsSaid(t.polls[Tekton.EndOf(t.polls, 0)].run, result.value.status);
    if result.value.status == P.NodeStatus.Cancelled {
      return Raised("PipelineRun was cancelled"), m;
    }
    if result.value.status != P.NodeStatus.Succeeded {
      var atScan := FirstFailedIsScan(result.value.steps, t.polls[Tekton.EndOf(t.polls, 0)], names);
      if atScan {
        dep.status, dep.imageRef := Blocked, Some(t.imageRef);
      }
      return Raised("Tekton pipeline failed"), m;
    }
    Note(job, "Tekton PipelineRun succeeded", true, names, m);
    return Success(""), m;
  }

  lemma ReporterBound(reporter: Tekton.Reporter)
    requires reporter.Numbered()
    ensures reporter.due <= 6 + |reporter.stages|
  {
  }

  /** Looks for the first failed step, and whether it is the image scan. */
  method FirstFailedIsScan(steps: seq<Status.StepState>, ghost poll: Tekton.Poll, ghost stages: seq<string>)
    returns (atScan: bool)
    requires poll.Reading? && Tekton.ShowsReading(steps, poll, stages)
    requires |Text.Decimal(|stages|)| <= Pipeline.MAX_DIGITS
    ensures atScan <==> FailsAtScan(poll, stages)
  {
    hide Pipeline.TaskName, Text.Decimal, Status.TaskSays, Status.HasRun, Status.IsMessageOf, Status.SaysOver;
    Pipeline.BuiltInIndices(stages);
    Pipeline.TaskNamesDistinct(stages);
    for p := 0 to |steps|
      invariant forall q :: 0 <= q < p ==> !Status.TaskSays(poll.runs, Pipeline.TaskName(stages, q), P.NodeStatus.Failed)
    {
      Status.StateIsSaid(steps[p], poll.run, poll.runs, Pipeline.TaskName(stages, p), P.NodeStatus.Failed);
      if steps[p].status == P.NodeStatus.Failed {
        return steps[p].name == "scan";
      }
    }
    return false;
  }

  /** The host's own clone opens the first step before the shape of the pipeline is known. */
  method OpenOwnClone(job: JobRecord, now: int, ghost names: seq<string>)
    requires job.Valid() && job.origin.rows == map[] && CallCount(job.events) == 0 && !IsOver(job.events)
    requires Tekton.FollowsTekton(job.events, names)
    modifies job
    ensures OnTrack(job, true, names, 0)
  {
    hide Tekton.AnnouncedAs;
    ghost var before := job.events;
    job.OthersWrite();
    OverwritesAnnounceNothing(before, job.events);
    Tekton.OverwritesKeepTekton(before, job.events, names);
    NothingOpenYet(job);
    var raised := job.Step(1, 9, "cloning repository", now, now);
  }

  method TektonBuild(job: JobRecord, dep: Deployment, t: Tools, now: int) returns (r: Result<string>, ghost m: nat)
    requires job.Valid() && job.origin.rows == map[] && CallCount(job.events) == 0 && !IsOver(job.events)
    requires Tekton.FollowsTekton(job.events, StagesOf(t))
    requires |Text.Decimal(|StagesOf(t)|)| <= Pipeline.MAX_DIGITS
    requires forall i :: 0 <= i < |t.polls| ==> Tekton.IsChainPoll(t.polls[i], StagesOf(t))
    modifies job, dep`status, dep`imageRef
    ensures m <= 6 + |StagesOf(t)| && OnTrack(job, true, StagesOf(t), m)
    ensures r.Success? <==> TektonBuilds(t)
    ensures r.Success? ==> m == 6 + |StagesOf(t)|
    ensures LeftAt(dep.status, old(dep.status), t, true)
  {
    hide OnTrack, Tekton.IsChainPoll, Text.Decimal;
    ghost var names := StagesOf(t);
    m := 0;
    OpenOwnClone(job, now, names);
    r := RunTool(job, t.clone, true, names, 0);
    if r.Raised? {
      return;
    }
    if t.stages.Raised? {
      return Raised(t.stages.message), m;
    }
    if t.stages.value != [] {
      Note(job, ".platform.yml declares extra stages", true, names, 0);
    }
    if t.dockerfile == Missing {
      return Raised("no Dockerfile at the root of the repository"), m;
    }
    if t.dockerfile == Generated {
      Note(job, "no Dockerfile found, generated one", true, names, 0);
    }
    r, m := TektonBuildAndScan(job, dep, t, t.stages.value, now);
  }

  lemma NothingOpenYet(job: JobRecord)
    requires job.Valid() && job.origin.rows == map[] && CallCount(job.events) == 0
    ensures job.rows == map[] && OpenRows(job.rows) == {}
  {
    RowsShowAnnounced(job.origin, job.events, job.scrub);
    NothingAnnounced(job.events);
    assert job.rows.Keys == Shown(job.rows).Keys == {};
  }

  lemma {:induction false} NothingAnnounced(events: History<Event>)
    requires CallCount(events) == 0
    ensures Announced(events) == map[]
  {
    match events
    case Start =>
    case Then(earlier, _) => NothingAnnounced(earlier);
  }

  // ----- shipping, and the task as a whole -----

  /** Manifests, rollout and live URL: the same three steps on both paths. */
  method Ship(job: JobRecord, dep: Deployment, t: Tools, now: int, ghost tekton: bool, names: seq<string>)
    returns (r: Result<string>, ghost m: nat)
    requires OnTrack(job, tekton, names, 6 + |names|)
    modifies job, dep
    ensures 7 + |names| <= m <= 9 + |names| && OnTrack(job, tekton, names, m)
    ensures r.Success? <==> Ships(t)
    ensures r.Success? ==> m == 9 + |names| && dep.status == Live && dep.liveUrl == Some(t.liveUrl)
    ensures dep.imageRef == Some(t.imageRef)
    ensures r.Raised? ==> dep.status == Deploying
  {
    hide OnTrack;
    ghost var n := |names|;
    Announce(job, |names| + 7, 9 + |names|, "rendering + applying manifests", now, tekton, names, 6 + n);
    m := 7 + n;
    dep.status, dep.imageRef := Deploying, Some(t.imageRef);
    if t.render.Raised? {
      return t.render, m;
    }
    if t.apply.Raised? {
      return t.apply, m;
    }
    Announce(job, |names| + 8, 9 + |names|, "waiting for rollout", now, tekton, names, 7 + n);
    m := 8 + n;
    if t.rollout.ToolRaised? {
      return Raised(t.rollout.message), m;
    }
    Stream(job, t.rollout.lines, tekton, names, m);
    if t.rollout.code != 0 {
      Note(job, "rollout failed, rolling back", tekton, names, m);
      return Raised("rollout failed"), m;
    }
    Announce(job, |names| + 9, 9 + |names|, "capturing live URL", now, tekton, names, 8 + n);
    m := 9 + n;
    dep.status, dep.imageRef, dep.liveUrl := Live, Some(t.imageRef), Some(t.liveUrl);
    return Success(""), m;
  }

  /** Nothing has been announced, and the job is not over. */
  predicate IsUnstarted(events: History<Event>) {
    CallCount(events) == 0 && !IsOver(events)
  }

  lemma {:induction false} UnstartedFollows(events: History<Event>, tekton: bool, stages: seq<string>)
    requires IsUnstarted(events)
    ensures Follows(events, tekton, stages)
  {
    match events
    case Start =>
    case Then(earlier, _) => UnstartedFollows(earlier, tekton, stages);
  }

  /** Ends the job. Closing the last row never raises, and every row is then closed. */
  method Finish(job: JobRecord, outcome: JobStatus, reason: Option<string>, now: int,
                ghost tekton: bool, ghost stages: seq<string>, ghost m: nat)
    requires OnTrack(job, tekton, stages, m) && (outcome == Succeeded || outcome == Failed)
    modifies job
    ensures job.Valid() && job.status == outcome && job.error == reason
    ensures Follows(job.events, tekton, stages) && IsOver(job.events)
    ensures Ended(job.rows, Reached(tekton, m), if outcome == Succeeded then StepSucceeded else StepFailed)
  {
    OthersWrite(job, tekton, stages, m);
    TrackShape(job, tekton, stages, m);
    MarkEndsLinear(job.State(), Reached(tekton, m), outcome, reason, now, job.scrub);
    var raised := job.MarkJob(outcome, reason, now);
  }

  lemma LineKeepsFollowing(events: History<Event>, text: string, tekton: bool, stages: seq<string>)
    requires Follows(events, tekton, stages)
    ensures Follows(Then(events, Line(text)), tekton, stages)
  {
  }

  method FailWithoutSteps(job: JobRecord, reason: string, now: int)
    requires job.Valid() && job.status == Running && job.origin.rows == map[] && CallCount(job.events) == 0
    modifies job
    ensures job.Valid() && job.status == Failed && job.rows == map[]
  {
    ghost var before := job.events;
    job.OthersWrite();
    OverwritesAnnounceNothing(before, job.events);
    NothingOpenYet(job);
    CloseOpenOfNone(job.rows, StepFailed, now, StepError(Failed, Some(reason)));
    var raised := job.MarkJob(Failed, Some(reason), now);
  }

  /** The deploy task. It ends in one of two ways: the deployment is live, the job succeeded and
      all its steps did, exactly when every gate and tool passed; or the job failed at its last
      step, and the deployment is blocked or broken. A deployment ends blocked exactly when a gate
      refused it, or when it was blocked before and the task failed before it began to build. */
  method Deploy(job: JobRecord, dep: Deployment, t: Tools, tekton: bool, cancelled: bool, found: bool, now: int)
    requires job.Valid() && job.origin.rows == map[] && IsUnstarted(job.events)
    requires |Text.Decimal(|StagesOf(t)|)| <= Pipeline.MAX_DIGITS
    requires tekton ==> forall i :: 0 <= i < |t.polls| ==> Tekton.IsChainPoll(t.polls[i], StagesOf(t))
    modifies job, dep
    ensures job.Valid()
    ensures cancelled ==> job.State() == old(job.State()) && dep.status == old(dep.status)
    ensures !cancelled && !found ==> job.status == Failed && job.rows == map[] && dep.status == old(dep.status)
    ensures !cancelled && found ==>
              var green := Builds(t, tekton) && Ships(t);
              && Follows(job.events, tekton, StagesOf(t)) && IsOver(job.events)
              && (dep.status == Live <==> green)
              && (dep.status == Live && tekton ==> Tekton.EndedTrue(t.polls))
              && (green ==> job.status == Succeeded && job.error == None && Ended(job.rows, 9 + |StagesOf(t)|, StepSucceeded))
              && (green ==> dep.imageRef == Some(t.imageRef) && dep.liveUrl == Some(t.liveUrl))
              && (!green ==> job.status == Failed && job.error.Some?
                             && exists k :: 1 <= k <= 9 + |StagesOf(t)| && Ended(job.rows, k, StepFailed))
              && (!green ==> dep.status == if Blocks(t, tekton) || (old(dep.status) == Blocked && !ReachesBuild(t, tekton))
                                           then Blocked else Broken)
  {
    hide OnTrack, Builds, Blocks, ReachesBuild, Ships, Follows, Text.Decimal, Tekton.IsChainPoll, Tekton.EndedTrue;
    if cancelled {
      return;
    }
    job.Overwrite(Running, now);
    if !found {
      FailWithoutSteps(job, "record missing", now);
      return;
    }
    var names := StagesOf(t);
    var r;
    ghost var m;
    BlockedIsNotBuilt(t, tekton);
    if Builds(t, tekton) && tekton {
      BuiltEndedTrue(t);
    }
    r, m := RunToEnd(job, dep, t, tekton, now);
    if r.Raised? {
      if dep.status != Blocked {
        dep.status := Broken;
      }
      Note(job, "FAILED: " + r.message, tekton, names, m);
      Finish(job, Failed, Some(r.message), now, tekton, names, m);
    } else {
      Finish(job, Succeeded, None, now, tekton, names, m);
      LineKeepsFollowing(job.events, "Deployment live at " + t.liveUrl, tekton, names);
      job.AppendLog("Deployment live at " + t.liveUrl);
    }
  }

  lemma BuiltEndedTrue(t: Tools)
    requires Builds(t, true)
    ensures Tekton.EndedTrue(t.polls)
  {
  }

  /** Everything the task does before it closes the job. */
  method RunToEnd(job: JobRecord, dep: Deployment, t: Tools, tekton: bool, now: int)
    returns (r: Result<string>, ghost m: nat)
    requires job.Valid() && job.status == Running && job.origin.rows == map[] && IsUnstarted(job.events)
    requires |Text.Decimal(|StagesOf(t)|)| <= Pipeline.MAX_DIGITS
    requires tekton ==> forall i :: 0 <= i < |t.polls| ==> Tekton.IsChainPoll(t.polls[i], StagesOf(t))
    modifies job, dep
    ensures OnTrack(job, tekton, StagesOf(t), m) && m <= 9 + |StagesOf(t)| && 1 <= Reached(tekton, m)
    ensures r.Success? <==> Builds(t, tekton) && Ships(t)
    ensures r.Success? ==> m == 9 + |StagesOf(t)| && dep.status == Live
    ensures r.Success? ==> dep.imageRef == Some(t.imageRef) && dep.liveUrl == Some(t.liveUrl)
    ensures r.Raised? ==>
              (dep.status == Blocked <==> Blocks(t, tekton) || (old(dep.status) == Blocked && !ReachesBuild(t, tekton)))
  {
    hide Ships, SandboxBuilds, TektonBuilds, SandboxBlocks, TektonBlocks, SandboxReachesBuild, TektonReachesBuild;
    hide Tekton.IsChainPoll, Text.Decimal;
    BlockedIsNotBuilt(t, tekton);
    var names := StagesOf(t);
    if tekton {
      UnstartedFollows(job.events, true, names);
      r, m := TektonBuild(job, dep, t, now);
    } else {
      UnstartedFollows(job.events, false, []);
      r, m := SandboxBuild(job, dep, t, now);
    }
    if r.Success? {
      r, m := Ship(job, dep, t, now, tekton, names);
    }
  }
}
