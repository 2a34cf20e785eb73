/** Reading a Tekton run: the status of a run or task from its conditions, and the state of
    every declared task from the task runs that exist so far. */
module TektonStatus {
  import opened Wrappers
  import opened PipelineGraph

  datatype Condition = Condition(kind: string, status: string, reason: string, message: string)

  /** A task run, named after its pipeline task, with the conditions Tekton has set on it. */
  datatype TaskRun = TaskRun(task: string, conditions: seq<Condition>)

  datatype StepState = StepState(name: string, status: NodeStatus, message: string)

  predicate IsCancelledReason(reason: string) {
    reason in {"Cancelled", "TaskRunCancelled", "PipelineRunCancelled", "StoppedRunFinally", "CancelledRunFinally"}
  }

  predicate IsPendingReason(reason: string) {
    reason in {"Pending", "Started", "PipelineRunPending", "TaskRunPending"}
  }

  /** The first condition of kind "Succeeded", which is the only one Tekton sets. */
  function SucceededCondition(conditions: seq<Condition>): Option<Condition> {
    if conditions == [] then None
    else if conditions[0].kind == "Succeeded" then Some(conditions[0])
    else SucceededCondition(conditions[1..])
  }

  function ConditionStatus(conditions: seq<Condition>): NodeStatus {
    match SucceededCondition(conditions)
    case None => NodeStatus.Pending
    case Some(c) =>
      if c.status == "True" then NodeStatus.Succeeded
      else if c.status == "False" then (if IsCancelledReason(c.reason) then NodeStatus.Cancelled else NodeStatus.Failed)
      else if c.status == "Unknown" then
        if IsCancelledReason(c.reason) then NodeStatus.Cancelled
        else if IsPendingReason(c.reason) then NodeStatus.Pending
        else NodeStatus.Running
      else NodeStatus.Pending
  }

  predicate IsRunOver(status: NodeStatus) {
    status == NodeStatus.Succeeded || status == NodeStatus.Failed || status == NodeStatus.Cancelled
  }

  predicate Started(status: NodeStatus) {
    status in {NodeStatus.Running, NodeStatus.Succeeded, NodeStatus.Failed, NodeStatus.Cancelled}
  }

  // ----- what a list of conditions says -----

  /** A run or task is read by its first condition of kind "Succeeded". */
  predicate IsReadBy(conditions: seq<Condition>, i: nat) {
    && i < |conditions| && conditions[i].kind == "Succeeded"
    && forall j :: 0 <= j < i ==> conditions[j].kind != "Succeeded"
  }

  /** The condition a run is read by has this status, and a reason that is or is not among the given ones. */
  predicate HasVerdict(conditions: seq<Condition>, status: string, among: bool, reasons: set<string>) {
    exists i: nat :: i < |conditions| && IsReadBy(conditions, i)
                     && conditions[i].status == status && (conditions[i].reason in reasons) == among
  }

  predicate SaysTrue(conditions: seq<Condition>) {
    HasVerdict(conditions, "True", false, {})
  }

  predicate SaysFailed(conditions: seq<Condition>) {
    HasVerdict(conditions, "False", false,
               {"Cancelled", "TaskRunCancelled", "PipelineRunCancelled", "StoppedRunFinally", "CancelledRunFinally"})
  }

  predicate SaysCancelled(conditions: seq<Condition>) {
    var reasons := {"Cancelled", "TaskRunCancelled", "PipelineRunCancelled", "StoppedRunFinally", "CancelledRunFinally"};
    HasVerdict(conditions, "False", true, reasons) || HasVerdict(conditions, "Unknown", true, reasons)
  }

  predicate SaysRunning(conditions: seq<Condition>) {
    HasVerdict(conditions, "Unknown", false,
               {"Cancelled", "TaskRunCancelled", "PipelineRunCancelled", "StoppedRunFinally", "CancelledRunFinally",
                "Pending", "Started", "PipelineRunPending", "TaskRunPending"})
  }

  /** Nothing is known yet: there is no such condition, it is neither "True", "False" nor "Unknown", or
      it is "Unknown" for a reason that means waiting. */
  predicate SaysPending(conditions: seq<Condition>) {
    || (forall i :: 0 <= i < |conditions| ==> conditions[i].kind != "Succeeded")
    || (exists i: nat :: i < |conditions| && IsReadBy(conditions, i) && conditions[i].status !in {"True", "False", "Unknown"})
    || HasVerdict(conditions, "Unknown", true, {"Pending", "Started", "PipelineRunPending", "TaskRunPending"})
  }

  predicate SaysOver(conditions: seq<Condition>) {
    SaysTrue(conditions) || SaysFailed(conditions) || SaysCancelled(conditions)
  }

  predicate Says(conditions: seq<Condition>, status: NodeStatus) {
    match status
    case Succeeded => SaysTrue(conditions)
    case Failed => SaysFailed(conditions)
    case Cancelled => SaysCancelled(conditions)
    case Running => SaysRunning(conditions)
    case Pending => SaysPending(conditions)
    case Skipped => false
  }

  lemma {:induction false} ConditionIsFirst(conditions: seq<Condition>)
    ensures SucceededCondition(conditions).None? <==> forall i :: 0 <= i < |conditions| ==> conditions[i].kind != "Succeeded"
    ensures forall i: nat :: IsReadBy(conditions, i) ==> SucceededCondition(conditions) == Some(conditions[i])
    ensures SucceededCondition(conditions).Some? ==> exists i: nat :: IsReadBy(conditions, i)
  {
    if conditions != [] {
      var rest := conditions[1..];
      ConditionIsFirst(rest);
      if conditions[0].kind == "Succeeded" {
        assert IsReadBy(conditions, 0);
      } else {
        forall i: nat | IsReadBy(conditions, i)
          ensures SucceededCondition(conditions) == Some(conditions[i])
        {
          assert IsReadBy(rest, i - 1);
        }
        if i: nat :| IsReadBy(rest, i) {
          assert IsReadBy(conditions, i + 1);
        }
      }
    }
  }

  lemma VerdictIs(conditions: seq<Condition>, status: string, among: bool, reasons: set<string>)
    ensures HasVerdict(conditions, status, among, reasons) <==>
            match SucceededCondition(conditions)
            case None => false
            case Some(c) => c.status == status && (c.reason in reasons) == among
  {
    ConditionIsFirst(conditions);
    if SucceededCondition(conditions).Some? {
      var i: nat :| IsReadBy(conditions, i);
    }
  }

  /** The status of a run or task is the one its conditions say, and no other. */
  lemma StatusIsSaid(conditions: seq<Condition>, status: NodeStatus)
    ensures ConditionStatus(conditions) == status <==> Says(conditions, status)
  {
    hide HasVerdict, SucceededCondition;
    var cancelled := {"Cancelled", "TaskRunCancelled", "PipelineRunCancelled", "StoppedRunFinally", "CancelledRunFinally"};
    var pending := {"Pending", "Started", "PipelineRunPending", "TaskRunPending"};
    var either := {"Cancelled", "TaskRunCancelled", "PipelineRunCancelled", "StoppedRunFinally", "CancelledRunFinally",
                   "Pending", "Started", "PipelineRunPending", "TaskRunPending"};
    assert either == cancelled + pending && cancelled * pending == {} by { ReasonsDiffer(); }
    VerdictIs(conditions, "True", false, {});
    VerdictIs(conditions, "False", false, cancelled);
    VerdictIs(conditions, "False", true, cancelled);
    VerdictIs(conditions, "Unknown", true, cancelled);
    VerdictIs(conditions, "Unknown", true, pending);
    VerdictIs(conditions, "Unknown", false, either);
    OtherStatusIs(conditions);
    ConditionIsFirst(conditions);
    WordsDiffer();
  }

  lemma WordsDiffer()
    ensures "True" != "False" && "True" != "Unknown" && "False" != "Unknown"
  {
    assert |"True"| == 4 && |"False"| == 5 && |"Unknown"| == 7;
  }

  lemma ReasonsDiffer()
    ensures {"Cancelled", "TaskRunCancelled", "PipelineRunCancelled", "StoppedRunFinally", "CancelledRunFinally"}
            !! {"Pending", "Started", "PipelineRunPending", "TaskRunPending"}
  {
    assert |"Cancelled"| == 9 && |"TaskRunCancelled"| == 16 && |"PipelineRunCancelled"| == 20;
    assert |"StoppedRunFinally"| == 17 && |"CancelledRunFinally"| == 19;
    assert |"Pending"| == 7 && |"Started"| == 7 && |"PipelineRunPending"| == 18 && |"TaskRunPending"| == 14;
  }

  lemma OtherStatusIs(conditions: seq<Condition>)
    ensures (exists i: nat :: i < |conditions| && IsReadBy(conditions, i) && conditions[i].status !in {"True", "False", "Unknown"}) <==>
            match SucceededCondition(conditions)
            case None => false
            case Some(c) => c.status !in {"True", "False", "Unknown"}
  {
    ConditionIsFirst(conditions);
    if SucceededCondition(conditions).Some? {
      var i: nat :| IsReadBy(conditions, i);
    }
  }

  /** Conditions that say one thing say nothing else. */
  lemma OneIsSaid(conditions: seq<Condition>, status: NodeStatus)
    requires Says(conditions, status)
    ensures SaysTrue(conditions) <==> status == NodeStatus.Succeeded
    ensures SaysFailed(conditions) <==> status == NodeStatus.Failed
    ensures SaysCancelled(conditions) <==> status == NodeStatus.Cancelled
  {
    hide ConditionStatus, SaysTrue, SaysFailed, SaysCancelled, SaysRunning, SaysPending;
    StatusIsSaid(conditions, status);
    StatusIsSaid(conditions, NodeStatus.Succeeded);
    StatusIsSaid(conditions, NodeStatus.Failed);
    StatusIsSaid(conditions, NodeStatus.Cancelled);
  }

  lemma OverIsSaid(conditions: seq<Condition>)
    ensures IsRunOver(ConditionStatus(conditions)) <==> SaysOver(conditions)
  {
    hide ConditionStatus, SaysTrue, SaysFailed, SaysCancelled;
    StatusIsSaid(conditions, NodeStatus.Succeeded);
    StatusIsSaid(conditions, NodeStatus.Failed);
    StatusIsSaid(conditions, NodeStatus.Cancelled);
  }

  // ----- what a reading says of one task -----

  predicate IsLastRun(runs: seq<TaskRun>, task: string, k: nat) {
    k < |runs| && runs[k].task == task && forall j :: k < j < |runs| ==> runs[j].task != task
  }

  /** The last task run of a task says this of it. */
  predicate TaskSays(runs: seq<TaskRun>, task: string, status: NodeStatus) {
    exists k: nat :: k < |runs| && IsLastRun(runs, task, k) && Says(runs[k].conditions, status)
  }

  predicate TaskStarted(runs: seq<TaskRun>, task: string) {
    || TaskSays(runs, task, NodeStatus.Running) || TaskSays(runs, task, NodeStatus.Succeeded)
    || TaskSays(runs, task, NodeStatus.Failed) || TaskSays(runs, task, NodeStatus.Cancelled)
  }

  predicate HasRun(runs: seq<TaskRun>, task: string) {
    exists k :: 0 <= k < |runs| && runs[k].task == task
  }

  /** The state of a declared task: what its last task run says, with that run's message if it failed or
      was cancelled; without one, skipped in a run that is over and pending in one that is not. */
  predicate IsStateOf(step: StepState, run: seq<Condition>, runs: seq<TaskRun>, task: string) {
    && step.name == task
    && if HasRun(runs, task) then
         && TaskSays(runs, task, step.status)
         && IsMessageOf(step, runs, task)
       else
         step.status == (if SaysOver(run) then NodeStatus.Skipped else NodeStatus.Pending) && step.message == ""
  }

  predicate IsMessageOf(step: StepState, runs: seq<TaskRun>, task: string) {
    if step.status == NodeStatus.Failed || step.status == NodeStatus.Cancelled then
      exists k: nat :: k < |runs| && IsLastRun(runs, task, k) && IsMessage(runs[k].conditions, step.message)
    else step.message == ""
  }

  /** The message of the condition a run is read by. */
  predicate IsMessage(conditions: seq<Condition>, message: string) {
    if forall i :: 0 <= i < |conditions| ==> conditions[i].kind != "Succeeded" then message == ""
    else exists i: nat :: i < |conditions| && IsReadBy(conditions, i) && message == conditions[i].message
  }

  lemma MessageIsRead(conditions: seq<Condition>)
    ensures IsMessage(conditions, MessageOf(conditions))
  {
    ConditionIsFirst(conditions);
  }

  lemma {:induction false} LastRunIsLast(runs: seq<TaskRun>, task: string, n: nat)
    requires n <= |runs|
    ensures LastRun(runs, task, n).None? <==> forall k :: 0 <= k < n ==> runs[k].task != task
    ensures LastRun(runs, task, n).Some? ==>
              exists k: nat :: k < n && runs[k].task == task && LastRun(runs, task, n) == Some(runs[k])
                               && forall j :: k < j < n ==> runs[j].task != task
  {
    if n > 0 && runs[n - 1].task != task {
      LastRunIsLast(runs, task, n - 1);
    }
  }

  lemma LastIsUnique(runs: seq<TaskRun>, task: string, j: nat, k: nat)
    requires IsLastRun(runs, task, j) && IsLastRun(runs, task, k)
    ensures j == k
  {
  }

  lemma DeclaredIsState(run: seq<Condition>, runs: seq<TaskRun>, task: string)
    ensures IsStateOf(DeclaredState(IsRunOver(ConditionStatus(run)), runs, task), run, runs, task)
  {
    hide ConditionStatus, Says, MessageOf, IsMessage;
    LastRunIsLast(runs, task, |runs|);
    OverIsSaid(run);
    if LastRun(runs, task, |runs|).Some? {
      var k: nat :| k < |runs| && runs[k].task == task && LastRun(runs, task, |runs|) == Some(runs[k])
                    && forall j :: k < j < |runs| ==> runs[j].task != task;
      assert IsLastRun(runs, task, k);
      StatusIsSaid(runs[k].conditions, ConditionStatus(runs[k].conditions));
      MessageIsRead(runs[k].conditions);
    }
  }

  /** A state shows a task as under way or over exactly when its task run says so. */
  lemma StateIsSaid(step: StepState, run: seq<Condition>, runs: seq<TaskRun>, task: string, status: NodeStatus)
    requires IsStateOf(step, run, runs, task)
    requires status in {NodeStatus.Running, NodeStatus.Succeeded, NodeStatus.Failed, NodeStatus.Cancelled}
    ensures step.status == status <==> TaskSays(runs, task, status)
  {
    hide Says, IsMessageOf;
    if TaskSays(runs, task, status) {
      var k: nat :| k < |runs| && IsLastRun(runs, task, k) && Says(runs[k].conditions, status);
      assert HasRun(runs, task);
      var j: nat :| j < |runs| && IsLastRun(runs, task, j) && Says(runs[j].conditions, step.status);
      LastIsUnique(runs, task, j, k);
      StatusIsSaid(runs[k].conditions, status);
      StatusIsSaid(runs[k].conditions, step.status);
    }
  }

  lemma StateStarted(step: StepState, run: seq<Condition>, runs: seq<TaskRun>, task: string)
    requires IsStateOf(step, run, runs, task)
    ensures Started(step.status) <==> TaskStarted(runs, task)
  {
    hide IsStateOf, TaskSays;
    StateIsSaid(step, run, runs, task, NodeStatus.Running);
    StateIsSaid(step, run, runs, task, NodeStatus.Succeeded);
    StateIsSaid(step, run, runs, task, NodeStatus.Failed);
    StateIsSaid(step, run, runs, task, NodeStatus.Cancelled);
  }

  // ----- reading a run -----

  function MessageOf(conditions: seq<Condition>): string {
    var c := SucceededCondition(conditions);
    if c.Some? then c.value.message else ""
  }

  function StateOf(run: TaskRun): StepState {
    var status := ConditionStatus(run.conditions);
    StepState(run.task, status,
              if status == NodeStatus.Failed || status == NodeStatus.Cancelled then MessageOf(run.conditions) else "")
  }

  /** The last of the first `n` task runs for a task. */
  function LastRun(runs: seq<TaskRun>, task: string, n: nat): Option<TaskRun>
    requires n <= |runs|
  {
    if n == 0 then None
    else if runs[n - 1].task == task then Some(runs[n - 1])
    else LastRun(runs, task, n - 1)
  }

  /** What a declared task looks like in one reading of the run. */
  function DeclaredState(over: bool, runs: seq<TaskRun>, task: string): StepState {
    match LastRun(runs, task, |runs|)
    case Some(run) => StateOf(run)
    case None => StepState(task, if over then NodeStatus.Skipped else NodeStatus.Pending, "")
  }

  /** Every declared task once, in pipeline order, whether or not it has run. */
  method PipelineSteps(run: seq<Condition>, runs: seq<TaskRun>, declared: seq<string>) returns (steps: seq<StepState>)
    requires "" !in declared
    ensures |steps| == |declared|
    ensures forall p :: 0 <= p < |steps| ==> IsStateOf(steps[p], run, runs, declared[p])
  {
    var byName: map<string, StepState> := map[];
    for i := 0 to |runs|
      invariant forall task :: task != "" ==>
                  (task in byName <==> LastRun(runs, task, i).Some?) &&
                  (task in byName ==> byName[task] == StateOf(LastRun(runs, task, i).value))
    {
      hide ConditionStatus;
      var state := StateOf(runs[i]);
      if state.name != "" {
        byName := byName[state.name := state];
      }
    }
    var overall := ConditionStatus(run);
    var over := overall in {NodeStatus.Succeeded, NodeStatus.Failed, NodeStatus.Cancelled};
    steps := [];
    for p := 0 to |declared|
      invariant |steps| == p
      invariant forall q :: 0 <= q < p ==> steps[q] == DeclaredState(over, runs, declared[q])
    {
      hide ConditionStatus;
      assert declared[p] in declared;
      if declared[p] in byName {
        steps := steps + [byName[declared[p]]];
      } else {
        steps := steps + [StepState(declared[p], if over then NodeStatus.Skipped else NodeStatus.Pending, "")];
      }
    }
    forall p | 0 <= p < |steps|
      ensures IsStateOf(steps[p], run, runs, declared[p])
    {
      hide ConditionStatus;
      DeclaredIsState(run, runs, declared[p]);
    }
  }
}
