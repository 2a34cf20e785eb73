/** Keeping the step rows of a Tekton deploy up to date from successive readings of the run. */
module TektonPoller {
  import opened Wrappers
  import opened Recorder
  import opened PipelineGraph
  import opened TektonPipeline
  import opened TektonStatus
  import Text
  import Steps

  const PUSH := "push (builtin)"
  const OWN_CLONE := "cloning repository"
  const BUILT_IN: nat := 9

  // ----- the numbering of a Tekton deploy -----

  /** The d-th thing a Tekton deploy announces after its own clone: the tasks of the pipeline,
      with the push between build and scan, and then the three steps that ship the image. */
  function AnnouncedAs(stages: seq<string>, d: nat): string
    requires d < BUILT_IN + |stages|
  {
    if 3 <= d < 3 + |stages| then stages[d - 3]
    else if d < 4 + |stages| then TaskName(stages, d)
    else if d == 4 + |stages| then "pushing image to registry"
    else if d == 5 + |stages| then SCAN
    else Steps.DEPLOY[d - |stages|]
  }

  predicate IsTektonCall(e: Event, stages: seq<string>, d: nat)
    requires d < BUILT_IN + |stages|
  {
    && e.StepCall? && e.index == d + 1 && e.total == BUILT_IN + |stages|
    && e.name == AnnouncedAs(stages, d)
  }

  predicate IsOwnClone(e: Event) {
    e.StepCall? && e.index == 1 && e.total == BUILT_IN && e.name == OWN_CLONE
  }

  /** The host's own clone opens step 1; from then on every call is the next of the plan, so
      step 1 is opened a second time and every later step exactly once. */
  predicate FollowsTekton(events: History<Event>, stages: seq<string>) {
    match events
    case Start => true
    case Then(earlier, e) =>
      && FollowsTekton(earlier, stages)
      && (e.StepCall? || e.Mark? ==> !IsOver(earlier))
      && (e.Mark? ==> IsMarkTerminal(e.outcome))
      && (e.StepCall? ==>
            if CallCount(earlier) == 0 then IsOwnClone(e)
            else CallCount(earlier) <= BUILT_IN + |stages| && IsTektonCall(e, stages, CallCount(earlier) - 1))
  }

  /** A Tekton deploy is disciplined, and the step it has reached is the number of its
      announcements, the host's own clone apart. */
  lemma {:induction false} TektonIsDisciplined(events: History<Event>, stages: seq<string>)
    requires FollowsTekton(events, stages)
    ensures Disciplined(events)
    ensures LastIndex(events) == if CallCount(events) <= 1 then CallCount(events) else CallCount(events) - 1
    ensures CallCount(events) <= BUILT_IN + |stages| + 1
  {
    hide AnnouncedAs;
    match events
    case Start =>
    case Then(earlier, e) => TektonIsDisciplined(earlier, stages);
  }

  lemma {:induction false} OverwritesKeepTekton(before: History<Event>, after: History<Event>, stages: seq<string>)
    requires OnlyOverwrites(before, after) && FollowsTekton(before, stages)
    ensures FollowsTekton(after, stages)
    decreases after
  {
    if after != before {
      OverwritesKeepTekton(before, after.before, stages);
    }
  }

  // ----- readings of a linear run -----

  /** A task has started only if every task before it has succeeded. */
  predicate IsLinearReading(steps: seq<StepState>) {
    forall p, q :: 0 <= q < p < |steps| && Started(steps[p].status) ==> steps[q].status == NodeStatus.Succeeded
  }

  predicate IsReadingOf(steps: seq<StepState>, stages: seq<string>) {
    |steps| == 5 + |stages| && forall p :: 0 <= p < |steps| ==> steps[p].name == TaskName(stages, p)
  }

  /** The d-th announcement is due by the first `p` tasks of a reading: its task has started or,
      for the push, the build has succeeded. */
  predicate IsDue(steps: seq<StepState>, n: nat, p: nat, d: nat)
    requires p <= |steps| == 5 + n && d < 6 + n
  {
    if d < 4 + n then d < p && Started(steps[d].status)
    else if d == 4 + n then 3 + n < p && steps[3 + n].status == NodeStatus.Succeeded
    else 4 + n < p && Started(steps[4 + n].status)
  }

  /** Which announcement belongs to the task at position `p`. */
  function Slot(n: nat, p: nat): nat {
    if p < 4 + n then p else p + 1
  }

  /** What marks the d-th announcement as made. */
  function KeyAt(stages: seq<string>, d: nat): string
    requires d < 6 + |stages|
  {
    if d < 4 + |stages| then TaskName(stages, d)
    else if d == 4 + |stages| then PUSH
    else TaskName(stages, d - 1)
  }

  /** Of `due` announcements made after looking at `p` tasks, the first `made` are older, and
      the others have become due in this reading. */
  ghost predicate IsDueCount(steps: seq<StepState>, n: nat, p: nat, made: nat, due: nat)
    requires p <= |steps| == 5 + n
  {
    forall d :: 0 <= d < 6 + n ==> (d < due <==> d < made || IsDue(steps, n, p, d))
  }

  /** How many announcements have been made once the task at position `p` has been looked at. */
  function NextDue(steps: seq<StepState>, n: nat, p: nat, due: nat): nat
    requires p < |steps| == 5 + n
  {
    var pushed := p == 3 + n && steps[p].status == NodeStatus.Succeeded;
    if pushed then (if due < 5 + n then 5 + n else due)
    else if Started(steps[p].status) && due <= Slot(n, p) then Slot(n, p) + 1
    else due
  }

  /** In a linear reading, by the time a started task is looked at everything before it is due. */
  lemma AllBeforeAreDue(steps: seq<StepState>, n: nat, p: nat, made: nat, due: nat)
    requires |steps| == 5 + n && p < |steps| && IsLinearReading(steps) && Started(steps[p].status)
    requires IsDueCount(steps, n, p, made, due)
    ensures due >= Slot(n, p)
  {
    if p > 0 {
      assert steps[p - 1].status == NodeStatus.Succeeded;
      assert IsDue(steps, n, p, Slot(n, p) - 1);
    }
  }

  lemma DueCountAdvances(steps: seq<StepState>, n: nat, p: nat, made: nat, due: nat)
    requires |steps| == 5 + n && p < |steps| && IsLinearReading(steps)
    requires IsDueCount(steps, n, p, made, due)
    ensures IsDueCount(steps, n, p + 1, made, NextDue(steps, n, p, due))
  {
    if Started(steps[p].status) {
      AllBeforeAreDue(steps, n, p, made, due);
    }
    var q := p + 1;
    forall d: nat | d < 6 + n
      ensures d < NextDue(steps, n, p, due) <==> d < made || IsDue(steps, n, q, d)
    {
      var was := IsDue(steps, n, p, d);
      assert d < due <==> d < made || was;
    }
    assert IsDueCount(steps, n, q, made, NextDue(steps, n, p, due));
  }

  ghost predicate IsNumbering(indexOf: map<string, nat>, stages: seq<string>) {
    forall p :: 0 <= p < 5 + |stages| ==>
      TaskName(stages, p) in indexOf && indexOf[TaskName(stages, p)] == IndexAt(stages, p)
  }

  /** The labels give each stage's task the tenant's own wording, and no other task a label. */
  ghost predicate IsLabelling(labels: map<string, string>, stages: seq<string>) {
    forall p :: 0 <= p < 5 + |stages| ==>
      (TaskName(stages, p) in labels <==> 3 <= p < 3 + |stages|) &&
      (3 <= p < 3 + |stages| ==> labels[TaskName(stages, p)] == stages[p - 3])
  }

  lemma SlotNames(stages: seq<string>, p: nat)
    requires p < 5 + |stages|
    ensures IndexAt(stages, p) == Slot(|stages|, p) + 1
    ensures KeyAt(stages, Slot(|stages|, p)) == TaskName(stages, p)
    ensures AnnouncedAs(stages, Slot(|stages|, p)) == if 3 <= p < 3 + |stages| then stages[p - 3] else TaskName(stages, p)
    ensures AnnouncedAs(stages, 4 + |stages|) == "pushing image to registry"
  {
    hide StageTaskName;
  }

  lemma PushIsNoTask(stages: seq<string>, p: nat)
    requires p < 5 + |stages| && |Text.Decimal(|stages|)| <= MAX_DIGITS
    ensures TaskName(stages, p) != PUSH
  {
    hide StageTaskName, Text.Decimal;
    BuiltInIndices(stages);
    if 3 <= p < 3 + |stages| {
      Text.DecimalLengthGrows(p - 2, |stages|);
      TaskNameIsLabel(p - 2, stages[p - 3]);
      StageTaskAt(stages, p - 3);
    }
  }

  lemma KeysDistinct(stages: seq<string>)
    requires |Text.Decimal(|stages|)| <= MAX_DIGITS
    ensures forall c, d :: 0 <= c < d < 6 + |stages| ==> KeyAt(stages, c) != KeyAt(stages, d)
  {
    hide TaskName, Text.Decimal;
    TaskNamesDistinct(stages);
    forall c, d | 0 <= c < d < 6 + |stages|
      ensures KeyAt(stages, c) != KeyAt(stages, d)
    {
      if d == 4 + |stages| {
        PushIsNoTask(stages, c);
      } else if c == 4 + |stages| {
        PushIsNoTask(stages, d - 1);
      }
    }
  }

  class Reporter {
    const stages: seq<string>
    const total: nat
    const indexOf: map<string, nat>
    const labels: map<string, string>
    var seen: map<string, NodeStatus>
    var announced: set<string>
    /** How many announcements have been made. */
    ghost var due: nat

    constructor (stages: seq<string>, total: nat, indexOf: map<string, nat>, labels: map<string, string>)
      requires |Text.Decimal(|stages|)| <= MAX_DIGITS
      requires IsNumbering(indexOf, stages) && IsLabelling(labels, stages) && total == BUILT_IN + |stages|
      ensures this.stages == stages && Numbered() && SeenIsAnnounced() && due == 0
    {
      this.stages, this.total, this.indexOf, this.labels := stages, total, indexOf, labels;
      seen, announced, due := map[], {}, 0;
    }

    /** The announcements made are exactly the first `due` ones. */
    ghost predicate Numbered()
      reads this`due, this`announced
    {
      && IsNumbering(indexOf, stages) && IsLabelling(labels, stages) && total == BUILT_IN + |stages|
      && |Text.Decimal(|stages|)| <= MAX_DIGITS
      && due <= 6 + |stages|
      && forall d :: 0 <= d < 6 + |stages| ==> (KeyAt(stages, d) in announced <==> d < due)
    }

    /** A task that was last seen started has been announced; so has the push, once the
        build was seen to have succeeded. */
    ghost predicate SeenIsAnnounced()
      reads this`seen, this`due
    {
      AllSeenAnnounced(stages, seen, due)
    }

    /** The job's record has made the host's clone and `due` announcements, and nothing else. */
    ghost predicate Tracks(job: JobRecord)
      reads this`due, job
    {
      && job.Valid() && job.origin.rows == map[]
      && FollowsTekton(job.events, stages) && !IsOver(job.events)
      && CallCount(job.events) == due + 1
    }

    /** One announcement: the next one that is due, recorded as a step. It never raises. */
    method Announce(job: JobRecord, key: string, index: nat, name: string, now: int)
      requires Numbered() && Tracks(job) && due < 6 + |stages|
      requires key == KeyAt(stages, due) && index == due + 1 && name == AnnouncedAs(stages, due)
      modifies job, this`due, this`announced
      ensures due == old(due) + 1 && Numbered() && Tracks(job)
    {
      hide AnnouncedAs, KeyAt, Text.Decimal, IsNumbering, IsLabelling;
      KeysDistinct(stages);
      announced := announced + {key};
      RecordStep(job, index, name, now);
    }

    /** Others may write to the job's status at any time; the record stays on track. */
    method OthersWrite(job: JobRecord)
      requires Tracks(job)
      modifies job
      ensures Tracks(job)
    {
      hide FollowsTekton, Run;
      ghost var before := job.events;
      job.OthersWrite();
      OverwritesAnnounceNothing(before, job.events);
      OverwritesKeepTekton(before, job.events, stages);
    }

    method RecordStep(job: JobRecord, index: nat, name: string, now: int)
      requires Tracks(job) && due < 6 + |stages| && total == BUILT_IN + |stages|
      requires index == due + 1 && name == AnnouncedAs(stages, due)
      modifies job, this`due
      ensures due == old(due) + 1 && Tracks(job)
    {
      hide AnnouncedAs, Apply, Run, Linear, Disciplined, OnlyOverwrites;
      OthersWrite(job);
      TektonIsDisciplined(job.events, stages);
      DisciplinedRunShape(job.origin, job.events, job.scrub);
      StepKeepsLinear(job.State(), LastIndex(job.events), index, total, name, now, now, job.scrub);
      var raised := job.Step(index, total, name, now, now);
      due := due + 1;
    }

    /** After a reading, exactly the announcements that had been made before or have become due
        in it have been made: in order, without a gap, and none of them twice. */
    method Report(job: JobRecord, steps: seq<StepState>, now: int)
      requires Numbered() && SeenIsAnnounced() && Tracks(job)
      requires IsReadingOf(steps, stages) && IsLinearReading(steps)
      modifies this, job
      ensures Numbered() && SeenIsAnnounced() && Tracks(job)
      ensures IsDueCount(steps, |stages|, |steps|, old(due), due)
    {
      hide Numbered, SeenIsAnnounced, Tracks, TaskName;
      for p := 0 to |steps|
        invariant Numbered() && SeenIsAnnounced() && Tracks(job)
        invariant IsDueCount(steps, |stages|, p, old(due), due)
      {
        DueCountAdvances(steps, |stages|, p, old(due), due);
        ReportTask(job, steps, p, old(due), now);
      }
    }

    lemma NumberedFacts(p: nat)
      requires Numbered() && p < 5 + |stages|
      ensures |Text.Decimal(|stages|)| <= MAX_DIGITS && TaskName(stages, p) in indexOf
    {
      hide TaskName, KeyAt, Text.Decimal, IsLabelling;
    }

    lemma SeenStaysAnnounced(p: nat, step: StepState, before: map<string, NodeStatus>, due0: nat)
      requires p < 5 + |stages| && step.name == TaskName(stages, p) && |Text.Decimal(|stages|)| <= MAX_DIGITS
      requires seen == before[step.name := step.status] && due0 <= due
      requires AllSeenAnnounced(stages, before, due0)
      requires Started(step.status) ==> Slot(|stages|, p) < due
      requires p == 3 + |stages| && step.status == NodeStatus.Succeeded ==> 4 + |stages| < due
      ensures SeenIsAnnounced()
    {
      hide TaskName, Text.Decimal;
      TaskNamesDistinct(stages);
    }

    lemma SeenSettles(p: nat, step: StepState)
      requires SeenIsAnnounced()
      requires p < 5 + |stages| && step.name == TaskName(stages, p) && step.name in seen && seen[step.name] == step.status
      ensures Started(step.status) ==> Slot(|stages|, p) < due
      ensures p == 3 + |stages| && step.status == NodeStatus.Succeeded ==> 4 + |stages| < due
    {
      hide TaskName;
    }

    method ReportTask(job: JobRecord, steps: seq<StepState>, p: nat, ghost made: nat, now: int)
      requires Numbered() && SeenIsAnnounced() && Tracks(job)
      requires IsReadingOf(steps, stages) && IsLinearReading(steps) && p < |steps|
      requires IsDueCount(steps, |stages|, p, made, due)
      modifies this, job
      ensures Numbered() && SeenIsAnnounced() && Tracks(job)
      ensures due == NextDue(steps, |stages|, p, old(due))
    {
      hide TaskName, AnnouncedAs, KeyAt, Tracks, Numbered, IsDueCount, AllSeenAnnounced, Text.Decimal;
      NumberedFacts(p);
      var step := steps[p];
      if step.name in indexOf && !(step.name in seen && seen[step.name] == step.status) {
        if Started(step.status) {
          AllBeforeAreDue(steps, |stages|, p, made, due);
          AnnounceStarted(job, step, p, now);
        }
        seen := seen[step.name := step.status];
        assert SeenIsAnnounced() by {
          SeenStaysAnnounced(p, step, old(seen), old(due));
        }
      } else {
        SeenSettles(p, step);
      }
    }

    /** A task seen started is announced unless it has been, and with a finished build the push. */
    method AnnounceStarted(job: JobRecord, step: StepState, p: nat, now: int)
      requires Numbered() && Tracks(job)
      requires p < 5 + |stages| && step.name == TaskName(stages, p) && Started(step.status)
      requires due >= Slot(|stages|, p)
      modifies job, this`due, this`announced
      ensures Numbered() && Tracks(job)
      ensures old(due) <= due && Slot(|stages|, p) < due
      ensures due == if p == 3 + |stages| && step.status == NodeStatus.Succeeded then
                       (if old(due) < 5 + |stages| then 5 + |stages| else old(due))
                     else if old(due) <= Slot(|stages|, p) then Slot(|stages|, p) + 1 else old(due)
    {
      hide TaskName, AnnouncedAs, KeyAt, Tracks, Text.Decimal;
      SlotNames(stages, p);
      TaskNamesDistinct(stages);
      BuiltInIndices(stages);
      PushKey(stages);
      if step.name !in announced {
        var wording := if step.name in labels then labels[step.name] else step.name;
        Announce(job, step.name, indexOf[step.name], wording, now);
      }
      if step.name == "build" && step.status == NodeStatus.Succeeded && PUSH !in announced {
        Announce(job, PUSH, 5 + |stages|, "pushing image to registry", now);
      }
    }
  }

  // ----- polling until the run is over -----

  /** One reading of the run and its task runs, or a call whose output could not be read. */
  datatype Poll = Unreadable(message: string) | Reading(run: seq<Condition>, runs: seq<TaskRun>)

  datatype RunResult = RunResult(status: NodeStatus, steps: seq<StepState>, message: string)

  /** What the cluster guarantees of a pipeline that is one chain: a task starts only after all
      before it have succeeded, and the run succeeds only when all its tasks have. */
  ghost predicate IsChainPoll(poll: Poll, stages: seq<string>) {
    poll.Reading? ==>
      && (forall p, q :: 0 <= q < p < 5 + |stages| && TaskStarted(poll.runs, TaskName(stages, p)) ==>
            TaskSays(poll.runs, TaskName(stages, q), NodeStatus.Succeeded))
      && (SaysTrue(poll.run) ==>
            forall p :: 0 <= p < 5 + |stages| ==> TaskSays(poll.runs, TaskName(stages, p), NodeStatus.Succeeded))
  }

  predicate EndsWait(poll: Poll) {
    poll.Unreadable? || SaysOver(poll.run)
  }

  /** The poll that ends the wait; past the last one, the deadline has passed. */
  function EndOf(polls: seq<Poll>, i: nat): (e: nat)
    requires i <= |polls|
    ensures i <= e <= |polls|
    ensures e < |polls| ==> EndsWait(polls[e])
    decreases |polls| - i
  {
    if i == |polls| || EndsWait(polls[i]) then i else EndOf(polls, i + 1)
  }

  ghost predicate ShowsReading(steps: seq<StepState>, poll: Poll, stages: seq<string>)
    requires poll.Reading?
  {
    |steps| == 5 + |stages| && forall p :: 0 <= p < |steps| ==> IsStateOf(steps[p], poll.run, poll.runs, TaskName(stages, p))
  }

  lemma ReadingIsLinear(steps: seq<StepState>, poll: Poll, stages: seq<string>)
    requires poll.Reading? && ShowsReading(steps, poll, stages) && IsChainPoll(poll, stages)
    ensures IsReadingOf(steps, stages) && IsLinearReading(steps)
    ensures SaysTrue(poll.run) ==> forall p :: 0 <= p < |steps| ==> steps[p].status == NodeStatus.Succeeded
  {
    hide TaskName, TaskSays, TaskStarted, HasRun, SaysTrue, IsMessageOf;
    forall p, q | 0 <= q < p < |steps| && Started(steps[p].status)
      ensures steps[q].status == NodeStatus.Succeeded
    {
      StateStarted(steps[p], poll.run, poll.runs, TaskName(stages, p));
      StateIsSaid(steps[q], poll.run, poll.runs, TaskName(stages, q), NodeStatus.Succeeded);
    }
    if SaysTrue(poll.run) {
      forall p | 0 <= p < |steps|
        ensures steps[p].status == NodeStatus.Succeeded
      {
        StateIsSaid(steps[p], poll.run, poll.runs, TaskName(stages, p), NodeStatus.Succeeded);
      }
    }
  }

  /** The run was read to its end, and the condition it is read by says "True". */
  ghost predicate EndedTrue(polls: seq<Poll>) {
    exists e: nat :: e < |polls| && IsEnd(polls, e) && polls[e].Reading? && HasTrue(polls[e].run)
  }

  /** The first condition of kind "Succeeded" has status "True". */
  ghost predicate HasTrue(conditions: seq<Condition>) {
    exists i: nat :: i < |conditions| && IsReadBy(conditions, i) && conditions[i].status == "True"
  }

  /** The first poll that cannot be read or shows the run as over. */
  predicate IsEnd(polls: seq<Poll>, e: nat) {
    e < |polls| && EndsWait(polls[e]) && forall j :: 0 <= j < e ==> !EndsWait(polls[j])
  }

  lemma {:induction false} EndIsFirst(polls: seq<Poll>, i: nat)
    requires i <= |polls|
    ensures forall j :: i <= j < EndOf(polls, i) ==> !EndsWait(polls[j])
    decreases |polls| - i
  {
    hide EndsWait;
    if i < |polls| && !EndsWait(polls[i]) {
      EndIsFirst(polls, i + 1);
    }
  }

  lemma EndedTrueIff(polls: seq<Poll>)
    ensures var e := EndOf(polls, 0);
            EndedTrue(polls) <==> e < |polls| && polls[e].Reading? && SaysTrue(polls[e].run)
  {
    hide EndsWait;
    EndIsFirst(polls, 0);
    var end := EndOf(polls, 0);
    if end < |polls| && polls[end].Reading? && SaysTrue(polls[end].run) {
      assert IsEnd(polls, end);
    }
    if EndedTrue(polls) {
      var e: nat :| e < |polls| && IsEnd(polls, e) && polls[e].Reading? && HasTrue(polls[e].run);
      assert e == end;
    }
  }

  lemma NamesNotEmpty(stages: seq<string>)
    requires |Text.Decimal(|stages|)| <= MAX_DIGITS
    ensures "" !in TaskNames(stages)
  {
  }

  /** Polls until the run is over, reporting every reading on the way. */
  method Wait(reporter: Reporter, job: JobRecord, polls: seq<Poll>, now: int) returns (r: Result<RunResult>)
    requires reporter.Numbered() && reporter.SeenIsAnnounced() && reporter.Tracks(job)
    requires forall i :: 0 <= i < |polls| ==> IsChainPoll(polls[i], reporter.stages)
    modifies reporter, job
    ensures reporter.Numbered() && reporter.Tracks(job)
    ensures var e := EndOf(polls, 0);
            && (r.Success? <==> e < |polls| && polls[e].Reading?)
            && (r.Success? ==> Says(polls[e].run, r.value.status) && IsMessage(polls[e].run, r.value.message)
                               && ShowsReading(r.value.steps, polls[e], reporter.stages))
    ensures r.Success? && r.value.status == NodeStatus.Succeeded <==> EndedTrue(polls)
    ensures EndedTrue(polls) ==> reporter.due == 6 + |reporter.stages|
  {
    hide TaskName, ConditionStatus, IsChainPoll, AllSeenAnnounced, FollowsTekton, KeyAt;
    hide SaysTrue, SaysFailed, SaysCancelled, SaysRunning, SaysPending, IsStateOf, IsMessage, EndedTrue;
    EndedTrueIff(polls);
    var declared := PipelineTaskNames(reporter.stages);
    NamesNotEmpty(reporter.stages);
    var i := 0;
    while i < |polls|
      invariant 0 <= i <= |polls| && EndOf(polls, i) == EndOf(polls, 0)
      invariant reporter.Numbered() && reporter.SeenIsAnnounced() && reporter.Tracks(job)
      decreases |polls| - i
    {
      if polls[i].Unreadable? {
        return Raised(polls[i].message);
      }
      var steps := PipelineSteps(polls[i].run, polls[i].runs, declared);
      assert ShowsReading(steps, polls[i], reporter.stages);
      ReadingIsLinear(steps, polls[i], reporter.stages);
      ghost var made := reporter.due;
      reporter.Report(job, steps, now);
      var status := ConditionStatus(polls[i].run);
      OverIsSaid(polls[i].run);
      StatusIsSaid(polls[i].run, status);
      StatusIsSaid(polls[i].run, NodeStatus.Succeeded);
      if status in {NodeStatus.Succeeded, NodeStatus.Failed, NodeStatus.Cancelled} {
        MessageIsRead(polls[i].run);
        if status == NodeStatus.Succeeded {
          AllDue(steps, |reporter.stages|, made, reporter.due);
        }
        return Success(RunResult(status, steps, MessageOf(polls[i].run)));
      }
      i := i + 1;
    }
    return Raised("timed out waiting for the PipelineRun");
  }

  /** When every task has succeeded, everything up to the scan has been announced. */
  lemma AllDue(steps: seq<StepState>, n: nat, made: nat, due: nat)
    requires |steps| == 5 + n && IsDueCount(steps, n, |steps|, made, due)
    requires forall p :: 0 <= p < |steps| ==> steps[p].status == NodeStatus.Succeeded
    ensures due >= 6 + n
  {
    assert IsDue(steps, n, |steps|, 5 + n);
  }

  ghost predicate AllSeenAnnounced(stages: seq<string>, seen: map<string, NodeStatus>, due: nat) {
    forall p :: 0 <= p < 5 + |stages| && TaskName(stages, p) in seen ==>
      && (Started(seen[TaskName(stages, p)]) ==> Slot(|stages|, p) < due)
      && (p == 3 + |stages| && seen[TaskName(stages, p)] == NodeStatus.Succeeded ==> 4 + |stages| < due)
  }

  lemma PushKey(stages: seq<string>)
    ensures KeyAt(stages, 4 + |stages|) == PUSH
  {
  }
}
