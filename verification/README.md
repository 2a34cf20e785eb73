# Verification of the control plane's deploy pipeline

A Dafny model of the stateful core of the control plane: the step rows and the log a worker
leaves behind, the pipeline graph that is drawn from them, the deploy task with its gates, the
Tekton numbering and poller, and, around them, the pieces that share state between processes or
bound what they keep. `dafny verify dfyconfig.toml` checks the whole project.

## How the model is laid out

- `JobLog`, `Recorder`: the capped job log and the step rows. `Recorder.Apply` says what one write
  does; a run is a `History` of writes. The class `JobRecord` is the mutable record, with the
  history as a ghost, and every method is proved against `Apply`.
- `LogMarkers`, `Slugs`, `NodeIds`, `Steps`, `PipelineGraph`, `GraphTheorems`, `PipelineConfig`, `StepNames`:
  reading `[n/N] name` markers back, what a slug is, unique node ids, the declared templates, the graph in both of its forms
  (from rows, from the log), what a reader of it may rely on, the stages of `.platform.yml`, and what
  the steps of a deploy are called on its two paths.
- `DeployPlan`, `DeployTask`, `FinishedDeploy`, `DeployLog`: the numbering of a sandbox deploy, the
  task itself driven by the outcomes of its tools, the length of its graph and how it ends, and what
  its log tells without the rows.
- `TektonPipeline`, `TektonStatus`, `TektonPoller`, `TektonGraph`, `GraphLabels`: task names and the chain they form,
  one reading of a run, the reporter that turns successive readings into step rows, the graph of
  a Tekton deploy while it runs, and when two nodes of a deploy's graph carry one label.
- `JobGraphs`: what `JobGraph` returns for a whole job, with the labels written out: a deploy at any moment
  on either path, a provisioning job by its total or its mode, and the log fallback.
- `Parsers`: the three scanner parsers, whose summaries the gates add up.
- `SandboxOutput`, `RateLimit`, `ScriptBuffer`: a read loop and two bounded buffers, each against
  the unbounded history it stands for.
- `QueueDeploy`, `ClusterPool`: database steps of many clients, interleaved in any order.
- `CiJoin`, `DependencyClosure`: joining GitHub jobs onto workflow jobs, and the worklist of the
  requirements closure.
- `Wrappers`, `Text`, `Sets`: shared datatypes, decimal numerals and strings, finite sets.

Tools, clocks, the cluster and YAML or JSON decoding are parameters: a tool is the outcome it
gives, a report is taken after decoding, `scrub_line` is any function of one line. An exception is
a value (`Result`, or the outcome of a write). A Tekton run is any sequence of readings in which a
task starts only after the ones before it have succeeded (`TektonPoller.IsChainPoll`).

## Where the code and its documentation part

- `controlplane/workers/tasks.py:91-95` promises that a truncated log says so. As long as the marker's
  own line is not printed by the job itself, it does so only on every other truncation: an append to a
  log that already opens with the marker cuts into it (`JobLog.TruncationsAlternate`, with
  `JobLog.TruncatedLogWithoutItsMarker` as a run).
- `controlplane/workers/tasks.py:171-173` calls reopening a row harmless. It is as long as no other
  row is open (`Recorder.ReopenNeedsNoOtherOpen`, `Recorder.RevisitedStepRaises`).
- `controlplane/workers/tasks.py:1213` speaks of CRITICAL and HIGH dependencies; the gate blocks on
  any advisory, and that is what is modelled.
- The log fallback does not shift the template for a repository's own stages as the row branch does.
  It shows a wrong label exactly while such a job has fewer than nine steps started, and draws the
  whole graph only once all have (`GraphTheorems.FallbackLabelsAgreeIff`,
  `DeployLog.DeployLogTellsAllIff`).
- `controlplane/core/pipeline_config.py:130-131` refuses repeated names so that no two nodes carry one
  label. Two nodes do at some moment exactly when some stage is named like a built-in step of the path
  the deploy takes, like a template step behind the stages, or like the placeholder of a later stage
  (`GraphLabels.NodesDifferIff`, `GraphLabels.LabelsAlwaysDifferIff`); the loader accepts such files
  (`GraphLabels.AcceptedStagesRepeatALabel`).
- `scripts/hash-requirements.py:7-9` promises the dependency closure with the extras included. A marker
  evaluated without an environment sees an empty `extra`, so the guard at lines 88-91 skips every
  requirement with the word "extra" in it, and the extras asked for at lines 70-71 never count. The
  promise is kept exactly when nothing that is skipped is missed (`DependencyClosure.PromiseIsMetIff`);
  `uvicorn[standard]` in `controlplane/requirements.txt:2` has the shape of
  `DependencyClosure.ExtraOfALineIsIgnored`.

## Model

| member | source | states |
|---|---|---|
| JobLog.LogIsFaithful | controlplane/workers/tasks.py:96-110 | after any sequence of appends the log is within the cap, is the whole history while that fits, and otherwise is a tail of the marker followed by a tail of the history of at least cap minus marker characters |
| JobLog.MarkerAlternates | controlplane/workers/tasks.py:91-110 | as long as the marker's own line does not occur behind it, a truncating append leaves the whole marker in front if and only if the log did not open with it before |
| JobLog.TruncationsAlternate | controlplane/workers/tasks.py:91-110 | over any run that never prints the marker's line itself, every truncating append alternates between adding the marker and cutting into it |
| JobLog.TruncatedLogWithoutItsMarker | controlplane/workers/tasks.py:91-110 | a two-append run after which a truncated log no longer carries its marker |
| JobLog.MarkerText | controlplane/workers/tasks.py:96-97 | the marker is one line between two line ends, with the cap of 200000 in it |
| Recorder.JobRecord.WriteLog | controlplane/workers/tasks.py:100-110 | one log write stores the scrubbed line capped as specified and nothing else |
| Recorder.JobRecord.OpenRow | controlplane/workers/tasks.py:177-207 | reopens the row of the index, or closes the open row and adds one; raises, changing nothing, exactly when a new index meets more than one open row |
| Recorder.JobRecord.Step | controlplane/workers/tasks.py:157-209 | the whole new state of rows and log after a step, or an exception and no change |
| Recorder.JobRecord.CloseLastRow | controlplane/workers/tasks.py:123-136 | closes the one open row with the job's outcome and the first 500 characters of the error; raises exactly on two open rows or on a non-terminal status with a row open |
| Recorder.JobRecord.MarkJob | controlplane/workers/tasks.py:113-136 | the whole new state after a job is marked, or an exception and no change |
| Recorder.StepIs | controlplane/workers/tasks.py:157-209 | row by row: a step with a new index raises exactly on two open rows, otherwise closes the open one as succeeded and adds one open row with its total, name and start; an index seen before only opens its row again, start and error kept |
| Recorder.MarkRaisesIff | controlplane/workers/tasks.py:113-136 | ending a job raises exactly when two rows are open, or one is and the status is not succeeded, failed or cancelled |
| Recorder.MarkIs | controlplane/workers/tasks.py:113-136 | otherwise exactly the open row is closed, succeeded or failed as the job, with the first 500 characters of a non-empty error unless it succeeded |
| Recorder.StepKeepsLinear | controlplane/workers/tasks.py:157-209 | rows 1 to k with only the last open stay of that form if and only if the next index is k + 1, or k again |
| Recorder.ReopenNeedsNoOtherOpen | controlplane/workers/tasks.py:178-186 | reopening a row keeps "at most one open row" if and only if no other row was open |
| Recorder.RevisitedStepRaises | controlplane/workers/tasks.py:181-193 | steps 1, 2, 1 leave two rows open, and step 3 then raises |
| Recorder.MarkEndsLinear | controlplane/workers/tasks.py:113-136 | ending a job closes its last row with the job's outcome and leaves rows 1 to k all closed, succeeded up to the last |
| Recorder.DisciplinedRunShape | controlplane/workers/tasks.py:113-209 | any run whose indices start at 1 and repeat or advance by one never meets two open rows; while it goes on the open row is the one with the largest index, and once over every row is closed and only the last can have failed |
| Recorder.StepsTileTheRun | controlplane/workers/tasks.py:189-204 | in any disciplined run each step has ended by the time the next one starts |
| Recorder.RowsKeepTheirStart | controlplane/workers/tasks.py:181-204 | for every run, disciplined or not, a row keeps the time its step was first announced, however often it is reopened |
| Recorder.RowsShowAnnounced | controlplane/models/job_step.py:20-40 | for every run, disciplined or not, there is one row for exactly the announced indices, each with the total and name announced last |
| LogMarkers.ParseLogStages | controlplane/core/pipeline_graph.py:250-256 | the loop over the matches returns the last total and name of every marked index |
| LogMarkers.StagesOfMarkerLine | controlplane/core/pipeline_graph.py:25 | a printed marker line is read back exactly, and the rest of the log as if it were not there |
| LogMarkers.HeadIff | controlplane/core/pipeline_graph.py:25 | a head is found if and only if the text starts with two numerals in brackets and a slash between them, and its numbers are theirs |
| LogMarkers.MatchOfName | controlplane/core/pipeline_graph.py:25 | behind a head the name is the next line that is not blank, stripped, however many blanks and line ends come first |
| LogMarkers.MatchOfBlanks | controlplane/core/pipeline_graph.py:25 | with only white space behind it a head counts, with an empty name, if and only if any of that white space is not a line end |
| LogMarkers.StagesOfUnmarked | controlplane/core/pipeline_graph.py:25 | output none of whose lines starts like a marker adds nothing, whatever follows it |
| LogMarkers.RecordedLogIsFaithful | controlplane/workers/tasks.py:100-110 | whatever a run prints, its stored log has at most 200000 characters and is a faithful tail of all it wrote |
| LogMarkers.LogAgreesWithRows | controlplane/workers/tasks.py:181-209 | parsing an untruncated, readable log recovers exactly the indices, totals and names the rows hold |
| NodeIds.Slugify | controlplane/core/pipeline_graph.py:50-57 | terminates for every finite taken-set with the first id of the slug that is free |
| NodeIds.CandidateCount | controlplane/core/pipeline_graph.py:52-55 | the first n ids tried are n different ones, which is why the search ends |
| NodeIds.SlugOfLabel | controlplane/core/pipeline_graph.py:27-51 | the slug of any label with a word in it is its words in lower case joined by single dashes, whatever stands between and around them |
| NodeIds.SlugOfNoWords | controlplane/core/pipeline_graph.py:51 | a label of other characters and dashes alone has the slug "step" |
| PipelineGraph.RowNode | controlplane/core/pipeline_graph.py:141-178 | label, status, times and detail of one node of the row-built graph |
| PipelineGraph.GraphFromRows | controlplane/core/pipeline_graph.py:118-179 | the row-built graph has the larger of template and declared total as length, and every node is as specified, chained to the one before it |
| PipelineGraph.GraphFromLog | controlplane/core/pipeline_graph.py:182-209 | the log-built graph, ending before the first step that neither log nor template names |
| PipelineGraph.JobGraph | controlplane/core/pipeline_graph.py:106-247 | which of the three graphs a job gets, from which template, with every node as specified, and the whole of the single node when there is nothing else |
| JobGraphs.DeployGraphIsLabelled | controlplane/core/pipeline_graph.py:66-179 | of the graph of a deploy job whose rows a run on either path left, at any moment, running or over: the nine built-in names while the stages are not counted; from then on 9 + n nodes, by name: started steps as announced, "step i of N" for exactly the stages not started, the template's names for the rest |
| JobGraphs.ShowDeploy | controlplane/core/pipeline_graph.py:106-179 | drawing the graph of the record a deploy keeps returns exactly those labels |
| JobGraphs.ProvisionGraphIsNamed | controlplane/core/pipeline_graph.py:43-79 | steps of a provisioning job not started carry the four, two or one names that totals 4, 2 and 1 stand for |
| JobGraphs.ProvisionGraphByMode | controlplane/core/pipeline_graph.py:66-79 | with any other total the project's mode picks the same three lists, and an unknown mode none |
| JobGraphs.OtherGraphIsNumbered | controlplane/core/pipeline_graph.py:79-179 | jobs of other kinds show a step without a row by its number alone |
| JobGraphs.LogGraphTemplate | controlplane/core/pipeline_graph.py:181-209 | without rows the log is read over the same lists, a provisioning job's picked by the total in the log |
| GraphTheorems.GraphIsSimpleChain | controlplane/core/pipeline_graph.py:50-57 | in every graph node ids are pairwise distinct and each node depends on the one directly before it only |
| GraphTheorems.StatusShape | controlplane/core/pipeline_graph.py:80-96 | by index, statuses are successes, one current node, then a tail that is pending while the job is queued or running and skipped otherwise; the current node shows its closed row's outcome, and while its row is open running, succeeded, cancelled or failed as the job is |
| GraphTheorems.TerminalGraphIsSettled | controlplane/core/pipeline_graph.py:80-96 | once the job is terminal no node is pending or running, even with a row left open |
| GraphTheorems.SucceededGraphIsGreen | controlplane/core/pipeline_graph.py:118-179 | rows 1 to k all succeeded under total k give k succeeded nodes |
| GraphTheorems.StatusNeverMovesBack | controlplane/core/pipeline_graph.py:80-96 | no write, reopening and cancellation included, moves any node of a running job backwards, short of reviving a finished job, and a closed step keeps its very outcome |
| GraphTheorems.RunNeverMovesBack | controlplane/core/pipeline_graph.py:80-96 | the same between any two moments of every disciplined run |
| GraphTheorems.TemplateCoversBuiltIns | controlplane/core/pipeline_graph.py:139-160 | for every template and total, all positions but those of extra stages are named by the template if and only if the job has no step beyond it or it has the three fixed ones |
| GraphTheorems.LogGraphAgrees | controlplane/core/pipeline_graph.py:118-209 | without extra stages the two graphs have the same ids, labels and edges, and the same statuses if and only if the job's status agrees with its last row's |
| GraphTheorems.LogFallbackAgrees | controlplane/core/pipeline_graph.py:181-209 | end to end: for an untruncated, unscrubbed log the graph drawn from the log alone equals the one drawn from the rows |
| GraphTheorems.FallbackLabelsAgreeIff | controlplane/core/pipeline_graph.py:118-209 | for any deploy, every label the fallback shows is right if and only if the job has no steps beyond the template or nine have started; it draws the whole graph if and only if there are none, or every step has started |
| DeployLog.DeployLogTellsAllIff | controlplane/core/pipeline_graph.py:181-209 | at any moment of any deploy on either path, still running or marked succeeded or failed, an undisturbed log within the cap yields the nodes of the rows, statuses included, if and only if there are no stages, or none counted yet, or every step has started |
| GraphTheorems.LogFallbackMislabelsExtraStages | controlplane/core/pipeline_graph.py:187-195 | a case where they differ: with one extra stage the fallback labels step 5 with the push instead of the build |
| PipelineConfig.LoadStages | controlplane/core/pipeline_config.py:89-166 | a file is accepted if and only if it is absent, empty, or a list of at most 20 sound entries with names distinct but for case; the stages are the cleaned entries in file order |
| PipelineConfig.AcceptedStagesFit | controlplane/core/pipeline_config.py:59-166 | accepted stages number at most 20, hold the stripped name, command and image of their entries, and have names of 1 to 60 characters, distinct but for case, and commands of at most 2000 |
| PipelineConfig.AcceptableIff | controlplane/core/pipeline_config.py:43-166 | a list is sound if and only if it has at most 20 entries, each a mapping with a name of 1 to 60 of the characters allowed, a command that is text, not blank and at most 2000 long, and no image or a valid one, and no two names are the same in lower case |
| Text.SpaceCodes | controlplane/core/pipeline_config.py:123 | white space is exactly the ASCII codes 9 to 13 and 28 to 32 |
| Text.LowerCodes | controlplane/core/pipeline_config.py:132 | lower case moves exactly the codes 65 to 90, by 32 |
| StepNames.AcceptedStepNamesAreReadable | controlplane/core/pipeline_config.py:57-59 | every name a deploy announces on either path, built-in or accepted from a file, can be printed as a marker and read back |
| GraphLabels.NodesDifferIff | controlplane/core/pipeline_graph.py:140-166 | at any moment of any deploy on either path, the labels of the graph's nodes are pairwise distinct if and only if every stage that has started differs from the built-in labels and the placeholders then shown |
| GraphLabels.LabelsAlwaysDifferIff | controlplane/core/pipeline_config.py:130-134 | they are at every moment if and only if no stage is named like a built-in step of the path, like a template step behind the stages, or like the placeholder of a later stage |
| GraphLabels.EveryMomentIsReached | controlplane/workers/tasks.py:1491-1784 | for each number of steps there is a deploy on either path that has got that far |
| GraphLabels.AcceptedStagesRepeatALabel | controlplane/core/pipeline_config.py:119-134 | three accepted files, one with a template name, one with a task name and one with a placeholder for a stage: once it has started two nodes carry its label |
| StepNames.NumberingsAgree | controlplane/runners/tekton.py:286-314 | the index of every task, and of the push, is the step of the sandbox plan that does the same work |
| DeployPlan.PlanIsDisciplined | controlplane/workers/tasks.py:1532-1571 | the sandbox numbering is consecutive, so the recorder's theorems apply to every prefix of it |
| DeployPlan.PlanAnnounces | controlplane/workers/tasks.py:1532-1784 | after m calls exactly steps 1 to m have been announced, with the provisional total 9 for the first three and 9 + n from then on |
| DeployPlan.GraphPredictsDeploy | controlplane/core/pipeline_graph.py:124-160 | once a row carries the full total, every built-in step still to come is labelled with the name it will be announced under, and exactly positions 4 to 3 + n not yet started are placeholders |
| DeployPlan.GraphBeforeTotalIsKnown | controlplane/core/pipeline_graph.py:118-160 | until then the graph shows the nine built-in steps, of which the first three are right for every repository |
| DeployPlan.RunningDeployIsPredicted | controlplane/workers/tasks.py:1491-1784 | at any moment of any run that follows the plan, from its first step that carries the full total on, the rows are linear and the graph is labelled as the rest of the run will be |
| TektonGraph.RunningTektonIsPredicted | controlplane/core/pipeline_graph.py:124-160 | at any moment of a running Tekton deploy, from the run's first report on, the graph has 9 + n steps: the started ones as announced, placeholders at exactly the stages not started, template names for the rest |
| TektonGraph.TektonAnnounces | controlplane/workers/tasks.py:2262-2276 | once the run has reported, rows 1 to m carry the total 9 + n and the names of the run, the host's own clone included |
| DeployTask.BlockedIsNotBuilt | controlplane/workers/tasks.py:1148-1283 | no outcome of the tools both passes and is refused by a gate |
| DeployTask.TrackShape | controlplane/workers/tasks.py:1437-1799 | on either path, at every moment, at most one row is open and it is the one with the largest index |
| DeployTask.ScanTwice | controlplane/workers/tasks.py:1167-1175 | the run a gate looks at is the first if it finished, else the second |
| DeployTask.SecretScanGate | controlplane/workers/tasks.py:1148-1207 | passes if and only if the last gitleaks run exited 0 or 1 in time and its report lists no leak; sets the deployment blocked exactly when it refuses |
| DeployTask.DependencyScanGate | controlplane/workers/tasks.py:1210-1283 | passes if and only if there is no requirements file or the last pip-audit run exited 0 or 1 in time and lists no advisory |
| DeployTask.ImageScanGate | controlplane/workers/tasks.py:1661-1754 | passes if and only if the last Trivy run exited 0 in time with a readable report in which no vulnerability's severity text is "critical" or "high" in any case |
| DeployTask.CheckSource | controlplane/workers/tasks.py:1533-1552 | clone and source gates: announces steps 1 to 3 in order and succeeds exactly when all three pass |
| DeployTask.RunStages | controlplane/workers/tasks.py:1570-1604 | announces one step per stage and succeeds exactly when every stage exits 0 in time |
| DeployTask.SandboxBuild | controlplane/workers/tasks.py:1533-1754 | the sandbox path to a scanned image succeeds exactly when every gate and tool does, having announced steps 1 to 6 + n |
| DeployTask.TektonBuildAndScan | controlplane/workers/tasks.py:2170-2288 | the Tekton path succeeds exactly when the run is read to its end and the condition it is read by has status "True", having announced steps 1 to 6 + n; it blocks exactly when the first failed task is the scan |
| DeployTask.Ship | controlplane/workers/tasks.py:1756-1789 | goes live exactly when the manifests were rendered and applied and the rollout exited 0 |
| DeployTask.Finish | controlplane/workers/tasks.py:113-136 | closing the job never raises and leaves every row closed, succeeded up to the last |
| DeployTask.Deploy | controlplane/workers/tasks.py:1438-1799 | whatever others write to the job's status before any write of the task: a deployment becomes live, with its image and URL, if and only if every gate and tool passed, and then rows 1 to 9 + n are all succeeded; every other run ends failed with succeeded rows before one failed row, and blocked if and only if a gate refused it or it was blocked before and failed before it began to build; a deployment live on the Tekton path had status "True" |
| FinishedDeploy.TotalSoFar | controlplane/workers/tasks.py:1478-1559 | on either path the largest total announced is nine until the stages are known, and 9 + n from then on |
| FinishedDeploy.SucceededDeployIsGreen | controlplane/core/pipeline_graph.py:118-179 | on either path a deploy that succeeded shows 9 + n nodes, all succeeded |
| FinishedDeploy.FailedDeployShowsWhere | controlplane/core/pipeline_graph.py:80-96 | a deploy that failed at step k shows successes before it, one failure, and only skipped nodes behind it |
| TektonPipeline.BuildPipelineSpec | controlplane/runners/tekton.py:131-230 | the spec's tasks are exactly the names of the pipeline, in order, each running after the one before |
| TektonPipeline.PipelineTaskNames | controlplane/runners/tekton.py:225-230 | the list of names is the same sequence |
| TektonPipeline.StepIndices | controlplane/runners/tekton.py:286-309 | every task has its step index, and nothing else has one |
| TektonPipeline.TaskNamesDistinct | controlplane/runners/tekton.py:54-62 | slugging, truncation and dash stripping never make two tasks of a pipeline share a name |
| TektonPipeline.StageTaskIsNotBuiltIn | controlplane/runners/tekton.py:54-62 | no stage's task is ever named like a built-in one |
| TektonPipeline.TaskNameIsLabel | controlplane/runners/tekton.py:54-62 | every stage task name is a DNS-1123 label of at most 57 characters |
| TektonPipeline.SlugOfStage | controlplane/runners/tekton.py:61 | the slug of a stage name is its words in lower case joined by single dashes, and empty when it has none |
| TektonPipeline.TaskNameIs | controlplane/runners/tekton.py:62 | a task name is the longest prefix of "stage-", number, dash and slug with at most 57 characters and no dash at its end, so all of it when it fits |
| TektonPipeline.IndicesFillTheRange | controlplane/runners/tekton.py:286-314 | step indices strictly increase along the chain, and with the push index are exactly 1 to 6 + n |
| TektonStatus.PipelineSteps | controlplane/core/tekton_status.py:110-138 | one state for every declared task, in pipeline order: what the condition its last task run is read by says, with its message if failed or cancelled; without one, skipped once the run says it is over and pending before |
| TektonStatus.StatusIsSaid | controlplane/core/tekton_status.py:48-89 | over the conditions alone: succeeded if and only if the first one of kind "Succeeded" has status "True"; failed, cancelled, running and pending each by its exact status and set of reasons |
| TektonPoller.TektonIsDisciplined | controlplane/workers/tasks.py:2236-2276 | reopening step 1 and announcing every later step once, in order, keeps the recorder's discipline |
| TektonPoller.DueCountAdvances | controlplane/workers/tasks.py:2246-2276 | in a linear reading the announcements due after each task are always a prefix of the numbering |
| TektonPoller.Reporter.Report | controlplane/workers/tasks.py:2236-2276 | after any reading exactly the announcements made before or due in it have been made, consecutively and each once, the push between build and scan, and no step call raises |
| TektonPoller.Reporter.AnnounceStarted | controlplane/workers/tasks.py:2262-2276 | a task seen started is announced once, and a finished build announces the push right behind it |
| TektonPoller.Wait | controlplane/runners/tekton.py:445-478 | returns the first reading in which the run says it is over, with the status it says, and raises on an unreadable one or past the deadline; it returns succeeded if and only if the first condition of kind "Succeeded" in that reading has status "True", and has then announced every step up to the scan |
| Parsers.TotalIsNumberOfFindings | controlplane/parsers/__init__.py:17-24 | an exact severity histogram adds up to the number of findings |
| Parsers.ParseGitleaks | controlplane/parsers/gitleaks_parser.py:12-37 | one high finding per leak, in order, field by field, with the exact histogram; raises exactly when the document is no list of leaks |
| Parsers.ListedLeaksAre | controlplane/parsers/gitleaks_parser.py:13-21 | which leaks a report lists: the list itself, the one under the key of an object, none in unreadable text; exactly a scalar or a null list raises |
| Parsers.EachLevelHasItsWord | controlplane/parsers/__init__.py:9-14 | each of critical, high, medium and low is given exactly to its own word in any case, and unknown to everything else, absent and empty included |
| Parsers.ParseTrivy | controlplane/parsers/trivy_parser.py:8-37 | one finding per vulnerability of every result, in report order, its severity by its own word and every other field from its place, with the exact histogram |
| Parsers.TrivyGateMeansClean | controlplane/parsers/trivy_parser.py:18-37 | critical plus high is zero if and only if no vulnerability in the report has "critical" or "high" in any case as its severity text |
| Parsers.ParsePipAudit | controlplane/parsers/pip_audit_parser.py:64-106 | exactly one finding per distinct (package, advisory), the first one, in first-seen order, with the exact histogram |
| Parsers.PipGateCountsDistinct | controlplane/parsers/pip_audit_parser.py:69-106 | the gate's number is the number of distinct (package, advisory) pairs, and zero if and only if nothing was reported |
| Parsers.AdvisoriesTell | controlplane/parsers/pip_audit_parser.py:77-105 | what is deduplicated are findings about exactly the advisories listed, in report order, each field from its place |
| Parsers.NonEmptyOfMore | controlplane/parsers/pip_audit_parser.py:92 | the aliases kept are those that are not empty, in their order |
| Parsers.JoinOfMore | controlplane/parsers/pip_audit_parser.py:100 | they are joined by a comma and a blank, and a single one is not changed |
| Parsers.SeverityIsLevel | controlplane/parsers/pip_audit_parser.py:38-61 | an advisory's level is that of its word or, with a vector or a number, the band of the score: 9, 7, 4 and above 0 |
| Parsers.SameKeyIff | controlplane/parsers/pip_audit_parser.py:81 | two findings count as one if and only if package and advisory print alike |
| Parsers.AdvisoriesEmpty | controlplane/parsers/pip_audit_parser.py:77-83 | something is reported if and only if some dependency lists an advisory |
| SandboxOutput.ReadLoop | controlplane/runners/sandbox.py:155-170 | the loop ends at the first poll that sees the exit or the deadline, with every line read so far kept in order and the rest still in the pipe |
| SandboxOutput.Drain | controlplane/runners/sandbox.py:198-202 | what was still in the pipe follows, in order, on every path |
| SandboxOutput.RunSandbox | controlplane/runners/sandbox.py:150-213 | for every interleaving of writes, select results and exit the collected lines are the whole stream in order: each without the newlines at its end, scrubbed exactly when there is a listener, who heard each exactly once; on a timeout they are what was written before the kill, and the notice follows |
| SandboxOutput.StrippedIsUnique | controlplane/runners/sandbox.py:167 | the text of a line without the newlines at its end is one text |
| SandboxOutput.JoinEndsEachLine | controlplane/runners/sandbox.py:204 | the output, closed by one line end, is the collected lines with a line end behind each |
| SandboxOutput.OutputIsStream | controlplane/runners/sandbox.py:198-204 | the joined output is the text the process wrote, up to one final line end |
| RateLimit.RateLimiter.Allow | controlplane/api/rate_limit.py:16-25 | the answer is the one that counting the full accepted history in the window gives, and other keys are untouched |
| RateLimit.Evict | controlplane/api/rate_limit.py:19-21 | dropping the oldest times leaves exactly those inside the window |
| RateLimit.AcceptedFitEveryWindow | controlplane/api/rate_limit.py:16-25 | of any limiter, whatever it has answered: every half-open window of a key's length, wherever it is laid, contains at most the key's limit of accepted calls |
| ScriptBuffer.ScriptJob.Append | controlplane/platform_ops.py:3081-3087 | the lines are always the last 4000 of the history, and the offset counts the rest |
| ScriptBuffer.ScriptJob.Output | controlplane/platform_ops.py:3135-3148 | the lines of the history from the given offset that are still held, and the length of the history as the next offset |
| ScriptBuffer.Replay | controlplane/platform_ops.py:3081-3147 | a client polling a buffer with the returned offsets is given the lines at the positions of the session |
| ScriptBuffer.ReceivedOnceInOrder | controlplane/platform_ops.py:3139-3147 | those positions increase: each line at most once and in order |
| ScriptBuffer.ReplayedIffKeptUp | controlplane/platform_ops.py:3084-3147 | the client is given as many lines as were printed by its last poll if and only if it never fell more than 4000 behind, and then exactly those lines |
| QueueDeploy.EveryOutcomeIsJustified | controlplane/workers/tasks.py:1378-1413 | every call ends by creating a job, by a refusal naming a job that was active while it ran, or by the conflict after the winner had stopped |
| QueueDeploy.JobsMatchRequests | controlplane/workers/tasks.py:1391-1411 | no two calls claim the same job, and every deploy job was created by a call |
| QueueDeploy.RequestsProgress | controlplane/workers/tasks.py:1378-1413 | a call ends after at most three database steps of its own and then stays as it ended |
| QueueDeploy.BothPassTheCheck | controlplane/workers/tasks.py:1387-1398 | two requests can both pass the check before either inserts |
| QueueDeploy.AtMostOneActiveDeploy | controlplane/models/job.py:13-34 | what the partial unique index gives by itself: in every interleaving, two deploy jobs of one deployment that are each queued or running are the same job |
| QueueDeploy.ReadNamesTheActiveJob | controlplane/workers/tasks.py:1387-1402 | a read always has one answer, and it names a job if and only if that is a queued or running deploy job of the deployment at that moment |
| QueueDeploy.RefusedIff | controlplane/workers/tasks.py:1387-1405 | a request that checks is refused naming a job if and only if that job is then a queued or running deploy of its deployment, and goes on to insert if and only if there is none; after a conflict it is refused in the same way, or ends with the conflict |
| QueueDeploy.CreatedIff | controlplane/workers/tasks.py:1391-1402 | an insert creates the queued job if and only if no deploy of the deployment is queued or running at that moment; otherwise the table stays as it is |
| QueueDeploy.WrittenIff | controlplane/models/job.py:27-34 | a change of status goes through unless it would make a second deploy of the deployment queued or running; jobs of other kinds are never refused |
| ClusterPool.PoolStaysSound | controlplane/core/pool.py:52-74 | in every run, crashes included, no cluster is held or claimed by two claimers and every claim is recorded for its own project on a cluster with the requested fingerprint |
| ClusterPool.ClaimIsFinal | controlplane/core/pool.py:71-73 | a claimed cluster never becomes available again and never changes hands |
| ClusterPool.CrashReleases | controlplane/core/pool.py:59-67 | a crash before the commit leaves the cluster available for the same request |
| ClusterPool.SelectIff | controlplane/core/pool.py:59-67 | the select locks the oldest available cluster of the fingerprint that nobody holds, and finds none if and only if there is none |
| ClusterPool.ReadyIsFree | controlplane/core/pool.py:59-67 | a cluster can be made ready exactly while it is warming, and the select may then take it for its fingerprint |
| ClusterPool.ClaimedWasReady | controlplane/core/pool.py:59-73 | in every run, a cluster held or claimed was warmed and then made ready before |
| ClusterPool.SameShapeIff | controlplane/core/pool.py:32-48 | two specs have the same shape if and only if mode, configuration and the multiset of node sizes and roles agree |
| ClusterPool.ClaimedClusterHasRequestedShape | controlplane/core/pool.py:25-74 | with a hash that does not collide a claimed cluster has the shape of the claimer's own spec |
| CiJoin.RollupStatuses | controlplane/platform_ops.py:1768-1776 | the member of highest precedence, skipped for none |
| CiJoin.RollupIgnoresOrder | controlplane/platform_ops.py:1768-1776 | the rollup depends on which statuses occur, not on their order or number |
| CiJoin.RollupOfParts | controlplane/platform_ops.py:1768-1776 | the rollup of a concatenation is the rollup of the two rollups, empty parts included |
| CiJoin.StatusOfWords | controlplane/platform_ops.py:1736-1765 | each status is shown exactly for its words: running for in_progress, pending for the four waiting ones, and for a completed job succeeded, failed and cancelled by their conclusions |
| CiJoin.LiteralIs | controlplane/platform_ops.py:1802-1809 | a job's literal, from its name or else its id, ends before the first template and reaches it but for trailing blanks |
| CiJoin.LabelInParentheses | controlplane/platform_ops.py:1838-1839 | a remainder in parentheses gives the text between them, without blanks at its ends |
| CiJoin.LabelBetweenBlanks | controlplane/platform_ops.py:1838-1839 | one without parentheses gives the text between the blanks, and one of blanks alone no label |
| CiJoin.MatchGhJob | controlplane/platform_ops.py:1812-1839 | the first job with exactly the rendered name, else the first of those whose literal prefix is longest, else none; and the matrix label |
| CiJoin.MatchIsUnique | controlplane/platform_ops.py:1826-1837 | that description fits only one job |
| CiJoin.JoinGhJobs | controlplane/platform_ops.py:1909-1953 | workflow nodes in file order, each with its legs in run order and their rollup, then the orphans in run order |
| CiJoin.EveryJobAppearsOnce | controlplane/platform_ops.py:1909-1953 | every named job is a leg of the one workflow job it matches or, matching none, an orphan, and unnamed jobs appear nowhere |
| DependencyClosure.Closure | scripts/hash-requirements.py:58-96 | terminates; a success holds exactly the packages reachable over requirements that apply and do not mention extras, each in its installed version; it succeeds if and only if all of them are installed, and a failure names one that is not |
| DependencyClosure.OnlyPlainRequirementsAreFollowed | scripts/hash-requirements.py:88-94 | whatever extras are asked for, a requirement is followed if and only if it does not mention extras and its marker holds |
| DependencyClosure.PromiseIsMetIff | scripts/hash-requirements.py:6-9 | the closure with the extras included is resolved if and only if every requirement that is skipped although it applies, under an extra its package is asked for with, names a package that is needed anyway |
| DependencyClosure.ExtraOfALineIsIgnored | scripts/hash-requirements.py:70-91 | a line asking for an extra, whose package requires another under it: the other is promised and not resolved |
| DependencyClosure.NameWithExtraIsIgnored | scripts/hash-requirements.py:88-91 | a requirement without a marker on a package with "extra" in its name: promised and not resolved |
| DependencyClosure.ListMembers | scripts/hash-requirements.py:99-134 | refuses exactly when there are no wheels, or one of the installed version is missing for a resolved package; otherwise the top packages in file order, then the others ascending |
| DependencyClosure.ListedOnceIff | scripts/hash-requirements.py:109-121 | exactly the resolved packages are listed, each once if and only if no line repeats a package |

## Left out

- Strings are ASCII where case, digits and white space matter: `str.lower`, `\d` and `strip` on other characters are not modelled.
- YAML and JSON decoding, regular-expression engines, base64 and SHA-256: documents are taken after decoding, the two patterns that matter are written out, the hash is any injective function, the image-reference pattern is any predicate.
- A gitleaks or pip-audit report that cannot be read counts as no findings, as in the code; the gates are stated over what was parsed. Values of unexpected JSON types inside a report are not modelled.
- `_cvss3_base_score`: a parameter, since nothing the gates decide depends on it.
- Stage counts with more than 51 digits, past which the cap on task names cuts into the number: `load_stages` accepts at most 20.
- `packaging` is not part of this model: a marker is a function of the value of `extra`, which is empty when it is evaluated without an environment, and a requirement whose text lacks the word cannot depend on it.
- DeployTask.Deploy: starts from a job without step rows; a redelivered message that finds rows of an earlier attempt is not covered.
- RateLimit.RateLimiter.Allow: each key is used with one limit and one window, as its callers do, and the monotonic clock does not go back.
- Database failures, hard-killed workers, and the stale-job and expiry reapers; a cancellation, a shutdown or a reaper is one write to the job's status. Those that come after the task has ended the job are not part of `DeployTask.Deploy`.
- Isolation levels: the index check of an insert, the query for the active job and the locking select are each one atomic step.
- Finishing time and error text written by a cancellation, a shutdown or a reaper, Celery task ids and request ids.
- Sleeps, the real clock, and `readline` blocking on a partial line; the loops end when the process exits or the clock passes the deadline.
- What a Tekton run guarantees is assumed of its readings: tasks start only behind succeeded ones, and a run succeeds only when all its tasks have. Clean-up of a finished run, scan results read from its pods, and the parameters and workspaces of its tasks are not modelled.
- DeployPlan.GraphPredictsDeploy: about the sandbox path; on the Tekton path a step still to come is shown under the template's name and announced under its task's, as TektonGraph.RunningTektonIsPredicted states.
- Persisting scans and findings, image references, manifests, GitOps and the text of log messages other than the step markers.
- `_find_requirements`, `_try_autogenerate_dockerfile` and `_clone_repo`: outcomes of tools.
- Times, durations, URLs, details and fan-out ids of CI nodes, and orphans' ids; workflow jobs have distinct ids, being keys of one mapping.
- Reading wheels and metadata from disk, choosing a wheel and hashing it.
- The console's other scripts, an ended script's exit code, and colour codes in its output.
- HTTP routers, web pages, provisioning, undeploys, on-demand scans, presets and quotas.
