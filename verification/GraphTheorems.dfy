/** What a reader of the pipeline graph may rely on, for every state a worker can leave behind. */
module GraphTheorems {
  import opened Wrappers
  import opened NodeIds
  import opened Recorder
  import opened PipelineGraph
  import JobLog
  import LogMarkers
  import Steps

  // ----- ids and edges -----

  /** Node ids are pairwise distinct, and each node depends on the one before it and on
      nothing else, so every edge leads strictly backwards. */
  lemma GraphIsSimpleChain(nodes: seq<Node>)
    requires IsChain(nodes)
    ensures forall i, j :: 0 <= i < j < |nodes| ==> nodes[i].id != nodes[j].id
    ensures forall i, j :: 0 <= i < |nodes| && 0 <= j < |nodes| ==>
              (nodes[j].id in nodes[i].dependsOn <==> j == i - 1)
  {
    hide SlugBase;
    forall i, j | 0 <= i < j < |nodes|
      ensures nodes[i].id != nodes[j].id
    {
      NextIdIsFree(nodes, j);
      assert nodes[i].id in IdsBefore(nodes, j);
    }
    forall i, j | 0 <= i < |nodes| && 0 <= j < |nodes|
      ensures nodes[j].id in nodes[i].dependsOn <==> j == i - 1
    {
      assert IsLinked(nodes, i);
    }
  }

  lemma NextIdIsFree(nodes: seq<Node>, j: nat)
    requires IsChain(nodes) && j < |nodes|
    ensures nodes[j].id !in IdsBefore(nodes, j)
  {
    hide SlugBase;
    assert IsLinked(nodes, j);
  }

  // ----- statuses -----

  /** The rows a worker leaves behind: a linear chain, still open or ended at its last step. */
  ghost predicate Shaped(rows: Rows, k: nat) {
    k >= 1 && (Linear(rows, k) || exists last :: Ended(rows, k, last))
  }

  function StatusAt(rows: Rows, job: JobStatus, i: nat): NodeStatus
    requires rows.Keys != {}
  {
    StatusOf(i, Current(rows), job, RowAt(rows, i))
  }

  lemma ShapedCurrent(rows: Rows, k: nat)
    requires Shaped(rows, k)
    ensures rows.Keys != {} && Current(rows) == k
  {
    assert k in rows;
    assert Current(rows) in rows;
  }

  /** Read by index, the statuses are a run of successes, one current node, and a tail that
      is pending while the job is queued or running and skipped once it is not. The current node
      shows its row's outcome, and while the row is open, the job's. */
  lemma StatusShape(rows: Rows, k: nat, job: JobStatus, i: nat)
    requires Shaped(rows, k) && i >= 1
    ensures rows.Keys != {}
    ensures i < k ==> StatusAt(rows, job, i) == NodeStatus.Succeeded
    ensures i > k && job in {JobStatus.Queued, JobStatus.Running} ==> StatusAt(rows, job, i) == NodeStatus.Pending
    ensures i > k && job !in {JobStatus.Queued, JobStatus.Running} ==> StatusAt(rows, job, i) == NodeStatus.Skipped
    ensures i == k && rows[k].status == StepSucceeded ==> StatusAt(rows, job, i) == NodeStatus.Succeeded
    ensures i == k && rows[k].status == StepFailed ==> StatusAt(rows, job, i) == NodeStatus.Failed
    ensures i == k && rows[k].status == StepRunning ==>
              && (job in {JobStatus.Queued, JobStatus.Running} ==> StatusAt(rows, job, i) == NodeStatus.Running)
              && (job == JobStatus.Succeeded ==> StatusAt(rows, job, i) == NodeStatus.Succeeded)
              && (job == JobStatus.Cancelled ==> StatusAt(rows, job, i) == NodeStatus.Cancelled)
              && (job in {JobStatus.Failed, JobStatus.Interrupted} ==> StatusAt(rows, job, i) == NodeStatus.Failed)
  {
    ShapedCurrent(rows, k);
  }

  /** Once the job is over, no node is pending or running: whatever the rows hold, and even
      if a cancellation or a worker shutdown left one of them open. */
  lemma TerminalGraphIsSettled(rows: Rows, job: JobStatus, i: nat)
    requires rows.Keys != {} && job != JobStatus.Queued && job != JobStatus.Running && i >= 1
    ensures StatusAt(rows, job, i) !in {NodeStatus.Pending, NodeStatus.Running}
  {
  }

  /** The rows of a job that succeeded, one for every step announced, give a graph in which
      every node succeeded. */
  lemma SucceededGraphIsGreen(nodes: seq<Node>, rows: Rows, k: nat, template: seq<string>)
    requires k >= 1 && Ended(rows, k, StepSucceeded) && rows.Keys != {}
    requires IsRowGraph(nodes, JobStatus.Succeeded, rows, template)
    requires Length(RowsTotal(rows), template) == k
    ensures |nodes| == k && forall i :: 0 <= i < k ==> nodes[i].status == NodeStatus.Succeeded
  {
  }

  /** How far along a status is: waiting, under way, over. */
  function Rank(status: NodeStatus): nat {
    match status
    case Pending => 0
    case Skipped => 0
    case Running => 1
    case _ => 2
  }

  /** A write that does not bring a finished job back to life. */
  predicate KeepsMoving(s: JobState, e: Event) {
    match e
    case Overwrite(status, _) => IsTerminal(s.status) ==> IsTerminal(status)
    case _ => true
  }

  /** The status of step `i` in state `r` is one it may have moved to from state `s`: not one
      less far along, and the very same if its row was already closed. */
  predicate HasMovedOn(s: JobState, r: JobState, i: nat) {
    && s.rows.Keys != {} && r.rows.Keys != {}
    && Rank(StatusAt(s.rows, s.status, i)) <= Rank(StatusAt(r.rows, r.status, i))
    && (i in s.rows && !IsOpen(s.rows[i]) ==>
          i in r.rows && !IsOpen(r.rows[i]) && StatusAt(r.rows, r.status, i) == StatusAt(s.rows, s.status, i))
  }

  /** No node ever moves backwards: not when the next step opens or the current one is opened
      again, not when the job ends or is cancelled under the worker. A closed step keeps its
      outcome; only that of an open one, shown while the job was over, can still change. */
  lemma StatusNeverMovesBack(s: JobState, k: nat, e: Event, scrub: string -> string, i: nat)
    requires k >= 1 && Linear(s.rows, k) && i >= 1
    requires e.StepCall? ==> e.index == k || e.index == k + 1
    requires e.Mark? ==> IsMarkTerminal(e.outcome)
    requires KeepsMoving(s, e)
    ensures Apply(s, e, scrub).Stored? && HasMovedOn(s, Apply(s, e, scrub).state, i)
  {
    match e
    case StepCall(_, _, _, _, _) => StepMovesOn(s, k, e, scrub, i);
    case Mark(_, _, _) => EndMovesOn(s, k, e, scrub, i);
    case Line(_) => OtherMovesOn(s, k, e, scrub, i);
    case Overwrite(_, _) => OtherMovesOn(s, k, e, scrub, i);
  }

  lemma StepMovesOn(s: JobState, k: nat, e: Event, scrub: string -> string, i: nat)
    requires k >= 1 && Linear(s.rows, k) && i >= 1
    requires e.StepCall? && (e.index == k || e.index == k + 1)
    ensures Apply(s, e, scrub).Stored? && HasMovedOn(s, Apply(s, e, scrub).state, i)
  {
    hide Logged, Marker;
    LinearOpenRows(s.rows, k);
    ShapedCurrent(s.rows, k);
    StepKeepsLinear(s, k, e.index, e.total, e.name, e.closing, e.at, scrub);
    ShapedCurrent(Apply(s, e, scrub).state.rows, e.index);
  }

  lemma EndMovesOn(s: JobState, k: nat, e: Event, scrub: string -> string, i: nat)
    requires k >= 1 && Linear(s.rows, k) && i >= 1
    requires e.Mark? && IsMarkTerminal(e.outcome)
    ensures Apply(s, e, scrub).Stored? && HasMovedOn(s, Apply(s, e, scrub).state, i)
  {
    LinearOpenRows(s.rows, k);
    ShapedCurrent(s.rows, k);
    MarkEndsLinear(s, k, e.outcome, e.reason, e.at, scrub);
    ShapedCurrent(Apply(s, e, scrub).state.rows, k);
  }

  lemma OtherMovesOn(s: JobState, k: nat, e: Event, scrub: string -> string, i: nat)
    requires k >= 1 && Linear(s.rows, k) && i >= 1
    requires (e.Line? || e.Overwrite?) && KeepsMoving(s, e)
    ensures Apply(s, e, scrub).Stored? && HasMovedOn(s, Apply(s, e, scrub).state, i)
  {
    hide Logged;
    ShapedCurrent(s.rows, k);
  }

  lemma WriteMovesOn(origin: JobState, events: History<Event>, e: Event, scrub: string -> string, i: nat)
    requires origin.rows == map[] && Disciplined(Then(events, e)) && LastIndex(events) >= 1 && i >= 1
    requires Run(origin, events, scrub).Stored? ==> KeepsMoving(Run(origin, events, scrub).state, e)
    ensures Run(origin, events, scrub).Stored? && Run(origin, Then(events, e), scrub).Stored?
    ensures HasMovedOn(Run(origin, events, scrub).state, Run(origin, Then(events, e), scrub).state, i)
  {
    hide Run, HasMovedOn, Linear, Ended, KeepsMoving, Apply;
    DisciplinedRunShape(origin, events, scrub);
    RunOfThen(origin, events, e, scrub);
    var s := Run(origin, events, scrub).state;
    if !IsOver(events) {
      StatusNeverMovesBack(s, LastIndex(events), e, scrub, i);
    } else {
      OverIsClosed(events);
      EndedMovesOn(s, LastIndex(events), ClosedAs(events), e, scrub, i);
    }
  }

  lemma {:induction false} OverIsClosed(events: History<Event>)
    requires IsOver(events)
    ensures ClosedAs(events) != StepRunning
  {
    match events
    case Then(earlier, Mark(_, _, _)) =>
    case Then(earlier, _) => OverIsClosed(earlier);
  }

  lemma EndedMovesOn(s: JobState, k: nat, last: StepStatus, e: Event, scrub: string -> string, i: nat)
    requires k >= 1 && Ended(s.rows, k, last) && last != StepRunning && i >= 1
    requires (e.Line? || e.Overwrite?) && KeepsMoving(s, e)
    ensures Apply(s, e, scrub).Stored? && HasMovedOn(s, Apply(s, e, scrub).state, i)
  {
    hide JobLog.Appended;
    ShapedCurrent(s.rows, k);
  }

  lemma RunOfThen(origin: JobState, events: History<Event>, e: Event, scrub: string -> string)
    requires Run(origin, events, scrub).Stored?
    ensures Run(origin, Then(events, e), scrub) == Apply(Run(origin, events, scrub).state, e, scrub)
  {
  }

  predicate IsEarlier(earlier: History<Event>, later: History<Event>) {
    earlier == later || (later.Then? && IsEarlier(earlier, later.before))
  }

  /** From `earlier` to `later`, no write brings the finished job back to life. */
  predicate StaysOver(origin: JobState, earlier: History<Event>, later: History<Event>, scrub: string -> string) {
    earlier != later && later.Then? ==>
      && StaysOver(origin, earlier, later.before, scrub)
      && (Run(origin, later.before, scrub).Stored? ==> KeepsMoving(Run(origin, later.before, scrub).state, later.last))
  }

  /** So over whole runs: between any two moments of a disciplined run, from its first step on, no
      node has moved backwards and no closed step has changed its outcome, unless a job that was
      over was brought back to life in between. */
  lemma {:induction false} RunNeverMovesBack(
      origin: JobState, earlier: History<Event>, later: History<Event>, scrub: string -> string, i: nat)
    requires origin.rows == map[] && IsEarlier(earlier, later) && Disciplined(later)
    requires LastIndex(earlier) >= 1 && i >= 1 && StaysOver(origin, earlier, later, scrub)
    ensures Run(origin, earlier, scrub).Stored? && Run(origin, later, scrub).Stored?
    ensures LastIndex(later) >= 1
    ensures HasMovedOn(Run(origin, earlier, scrub).state, Run(origin, later, scrub).state, i)
    decreases later
  {
    hide Run, HasMovedOn, KeepsMoving;
    if earlier == later {
      DisciplinedRunShape(origin, later, scrub);
      NothingMoved(origin, later, scrub, i);
    } else {
      RunNeverMovesBack(origin, earlier, later.before, scrub, i);
      WriteMovesOn(origin, later.before, later.last, scrub, i);
      MovingOnAddsUp(Run(origin, earlier, scrub).state, Run(origin, later.before, scrub).state,
                     Run(origin, later, scrub).state, i);
    }
  }

  lemma NothingMoved(origin: JobState, events: History<Event>, scrub: string -> string, i: nat)
    requires origin.rows == map[] && Disciplined(events) && LastIndex(events) >= 1
    requires Run(origin, events, scrub).Stored?
    ensures HasMovedOn(Run(origin, events, scrub).state, Run(origin, events, scrub).state, i)
  {
    hide Run;
    DisciplinedRunShape(origin, events, scrub);
    assert 1 in Run(origin, events, scrub).state.rows;
  }

  lemma MovingOnAddsUp(s: JobState, t: JobState, r: JobState, i: nat)
    requires HasMovedOn(s, t, i) && HasMovedOn(t, r, i)
    ensures HasMovedOn(s, r, i)
  {
  }

  // ----- labels -----

  predicate IsCovered(declared: nat, template: seq<string>, i: nat)
    requires i >= 1
  {
    IsExtraStep(i, Extra(declared, template)) || 0 <= TemplateIndex(i, Extra(declared, template)) < |template|
  }

  /** The template names every step that is not one of the repository's own exactly when the job has
      no step beyond it, or it has the three fixed ones. The deploy template always does; of the
      provision templates those of namespace and pooled jobs do as long as the total is theirs. */
  lemma TemplateCoversBuiltIns(declared: nat, template: seq<string>)
    ensures (forall i :: 1 <= i <= Length(declared, template) ==> IsCovered(declared, template, i))
            <==> declared <= |template| || |template| >= Steps.FIXED_PREFIX
  {
    if |template| < Steps.FIXED_PREFIX && declared > |template| {
      assert !IsCovered(declared, template, |template| + 1);
    }
  }

  // ----- the log fallback -----

  /** What the positional rule says of the current node agrees with what its row says. */
  predicate Consistent(rows: Rows, k: nat, job: JobStatus)
    requires k in rows
  {
    rows[k].status == StepRunning || OfStep(rows[k].status) == StatusOf(k, k, job, None)
  }

  /** When the job has no steps beyond its template, a graph built from the log has the nodes
      of the graph built from the rows: the same ids, labels and edges in any case, and the
      same statuses exactly when the job's own status agrees with its last row's. */
  lemma LogGraphAgrees(a: seq<Node>, b: seq<Node>, job: JobStatus, rows: Rows, k: nat, template: seq<string>)
    requires Shaped(rows, k) && k <= |template| && rows.Keys != {}
    requires Shown(rows).Keys != {} && RowsTotal(rows) == |template|
    requires IsRowGraph(a, job, rows, template)
    requires IsLogGraph(b, job, Shown(rows), template)
    ensures |a| == |b|
    ensures forall i :: 0 <= i < |a| ==>
              a[i].id == b[i].id && a[i].name == b[i].name && a[i].dependsOn == b[i].dependsOn
    ensures (forall i :: 0 <= i < |a| ==> a[i].status == b[i].status) <==> Consistent(rows, k, job)
  {
    ShapedCurrent(rows, k);
    assert Shown(rows).Keys == rows.Keys;
    forall i | 0 <= i < |a|
      ensures a[i].name == b[i].name
      ensures a[i].status == b[i].status <==> i != k - 1 || Consistent(rows, k, job)
    {
      assert IsRowNode(a[i], i + 1, job, rows, template);
      assert IsLogNode(b[i], i + 1, job, Shown(rows), template);
      assert i + 1 in rows <==> i + 1 <= k;
    }
    SameLabelsSameIds(a, b, |a|);
    assert a[k - 1].status == b[k - 1].status <==> Consistent(rows, k, job);
  }

  /** Ids and edges are a function of the labels alone. */
  lemma {:induction false} SameLabelsSameIds(a: seq<Node>, b: seq<Node>, m: nat)
    requires IsChain(a) && IsChain(b) && m <= |a| == |b|
    requires forall i :: 0 <= i < |a| ==> a[i].name == b[i].name
    ensures forall i :: 0 <= i < m ==> a[i].id == b[i].id && a[i].dependsOn == b[i].dependsOn
  {
    hide SlugBase, IsNextId;
    if m > 0 {
      SameLabelsSameIds(a, b, m - 1);
      assert IsLinked(a, m - 1) && IsLinked(b, m - 1);
      assert IdsBefore(a, m - 1) == IdsBefore(b, m - 1);
      NextIdUnique(SlugBase(a[m - 1].name), IdsBefore(a, m - 1), a[m - 1].id, b[m - 1].id);
    }
  }

  /** The fallback, end to end: for a run that announced its steps in order and printed them
      to a log that was neither truncated nor scrubbed, nor filled with marker look-alikes,
      the graph drawn from the log alone agrees with the graph drawn from the rows. */
  lemma LogFallbackAgrees(
      status: JobStatus, events: History<Event>, scrub: string -> string, template: seq<string>, k: nat,
      a: seq<Node>, b: seq<Node>)
    requires Run(Fresh(status), events, scrub).Stored?
    requires LogMarkers.Readable(events, scrub)
    requires |JobLog.Written(LogMarkers.Chunks(events, scrub))| <= JobLog.LOG_CAP
    requires var s := Run(Fresh(status), events, scrub).state;
             && Shaped(s.rows, k) && k <= |template| && s.rows.Keys != {}
             && RowsTotal(s.rows) == |template|
             && Consistent(s.rows, k, s.status)
             && IsRowGraph(a, s.status, s.rows, template)
             && LogMarkers.Stages(s.log).Keys != {}
             && IsLogGraph(b, s.status, LogMarkers.Stages(s.log), template)
    ensures |a| == |b|
    ensures forall i :: 0 <= i < |a| ==>
              && a[i].id == b[i].id && a[i].name == b[i].name
              && a[i].status == b[i].status && a[i].dependsOn == b[i].dependsOn
  {
    var s := Run(Fresh(status), events, scrub).state;
    LogMarkers.LogAgreesWithRows(status, events, scrub);
    LogGraphAgrees(a, b, s.status, s.rows, k, template);
  }

  predicate SameLabels(a: seq<Node>, b: seq<Node>, n: nat)
    requires n <= |a| && n <= |b|
  {
    forall i :: 0 <= i < n ==> a[i].name == b[i].name
  }

  /** The fallback reads the template without shifting it for a repository's own stages, and stops at
      the first step that it cannot name. For any deploy, a label it does show is wrong exactly when
      the job has steps beyond the template and fewer than nine have started; and its
      graph is the whole one, with the same ids and edges, exactly when the job has no such steps, or
      every step has started. */
  lemma FallbackLabelsAgreeIff(a: seq<Node>, b: seq<Node>, job: JobStatus, rows: Rows, k: nat)
    requires Shaped(rows, k) && rows.Keys != {} && Shown(rows).Keys != {}
    requires IsRowGraph(a, job, rows, Steps.DEPLOY) && IsLogGraph(b, job, Shown(rows), Steps.DEPLOY)
    ensures |b| <= |a| && (SameLabels(a, b, |b|) <==> RowsTotal(rows) <= |Steps.DEPLOY| || k >= |Steps.DEPLOY|)
    ensures |a| == |b| && SameLabels(a, b, |b|) <==>
            RowsTotal(rows) == |Steps.DEPLOY| || (RowsTotal(rows) > |Steps.DEPLOY| && k >= RowsTotal(rows))
    ensures |a| == |b| && SameLabels(a, b, |b|) ==>
              forall i :: 0 <= i < |a| ==> a[i].id == b[i].id && a[i].dependsOn == b[i].dependsOn
  {
    hide *;
    var n, total, shown := |Steps.DEPLOY|, RowsTotal(rows), Shown(rows);
    GraphLengths(a, b, job, rows, k);
    if total > n && k < n {
      var i := if k < 4 then 3 else k;
      GraphLabels(a, b, job, rows, k, i);
      UnstartedLabelDiffers(shown, total, i + 1);
      NotSameLabels(a, b, i);
    } else {
      forall i | 0 <= i < |b|
        ensures a[i].name == b[i].name
      {
        GraphLabels(a, b, job, rows, k, i);
        UnshiftedLabel(shown, total, i + 1);
      }
      AreSameLabels(a, b);
      if |a| == |b| {
        ChainsOfGraphs(a, b, job, rows);
        SameLabelsSameIds(a, b, |a|);
      }
    }
  }

  lemma NotSameLabels(a: seq<Node>, b: seq<Node>, i: nat)
    requires i < |b| <= |a| && a[i].name != b[i].name
    ensures !SameLabels(a, b, |b|)
  {
  }

  lemma AreSameLabels(a: seq<Node>, b: seq<Node>)
    requires |b| <= |a| && forall i :: 0 <= i < |b| ==> a[i].name == b[i].name
    ensures SameLabels(a, b, |b|)
  {
  }

  lemma ChainsOfGraphs(a: seq<Node>, b: seq<Node>, job: JobStatus, rows: Rows)
    requires rows.Keys != {} && Shown(rows).Keys != {}
    requires IsRowGraph(a, job, rows, Steps.DEPLOY) && IsLogGraph(b, job, Shown(rows), Steps.DEPLOY)
    ensures IsChain(a) && IsChain(b)
  {
  }

  /** How long the two graphs of a deploy are. */
  lemma GraphLengths(a: seq<Node>, b: seq<Node>, job: JobStatus, rows: Rows, k: nat)
    requires Shaped(rows, k) && rows.Keys != {} && Shown(rows).Keys != {}
    requires IsRowGraph(a, job, rows, Steps.DEPLOY) && IsLogGraph(b, job, Shown(rows), Steps.DEPLOY)
    ensures |Steps.DEPLOY| == 9 && Steps.FIXED_PREFIX == 3
    ensures |a| == if RowsTotal(rows) > 9 then RowsTotal(rows) else 9
    ensures |b| == if RowsTotal(rows) <= 9 || k >= RowsTotal(rows) then RowsTotal(rows) else if k >= 9 then k else 9
  {
    hide IsChain, LabelOf, StatusOf, ShowsRow;
    var next := |b| + 1;
    assert next in Shown(rows) <==> next <= k;
    if |b| > 0 {
      assert IsLogNode(b[|b| - 1], |b|, job, Shown(rows), Steps.DEPLOY);
      assert |b| in Shown(rows) <==> |b| <= k;
    }
  }

  lemma GraphLabels(a: seq<Node>, b: seq<Node>, job: JobStatus, rows: Rows, k: nat, i: nat)
    requires Shaped(rows, k) && rows.Keys != {} && Shown(rows).Keys != {}
    requires IsRowGraph(a, job, rows, Steps.DEPLOY) && IsLogGraph(b, job, Shown(rows), Steps.DEPLOY)
    requires i < |a| && i < |b|
    ensures a[i].name == LabelOf(Shown(rows), RowsTotal(rows), Steps.DEPLOY, i + 1)
    ensures b[i].name == FallbackLabel(Shown(rows), i + 1)
    ensures i + 1 in Shown(rows) <==> i + 1 <= k
  {
    hide IsChain, LabelOf, StatusOf, ShowsRow;
    assert IsRowNode(a[i], i + 1, job, rows, Steps.DEPLOY);
    assert IsLogNode(b[i], i + 1, job, Shown(rows), Steps.DEPLOY);
  }

  /** The label the fallback gives a step that it can name. */
  function FallbackLabel(shown: map<nat, (nat, string)>, i: nat): string
    requires i >= 1
  {
    if i in shown then shown[i].1 else if i <= |Steps.DEPLOY| then Steps.DEPLOY[i - 1] else ""
  }

  lemma UnshiftedLabel(shown: map<nat, (nat, string)>, declared: nat, i: nat)
    requires i >= 1 && (i in shown || (i <= |Steps.DEPLOY| && declared <= |Steps.DEPLOY|))
    ensures LabelOf(shown, declared, Steps.DEPLOY, i) == FallbackLabel(shown, i)
  {
  }

  /** A stage that has not started is a placeholder, and a built-in step behind the stages has another
      name than the unshifted template gives. */
  lemma UnstartedLabelDiffers(shown: map<nat, (nat, string)>, declared: nat, i: nat)
    requires declared > |Steps.DEPLOY| && i !in shown && Steps.FIXED_PREFIX < i <= |Steps.DEPLOY|
    ensures LabelOf(shown, declared, Steps.DEPLOY, i) != FallbackLabel(shown, i)
  {
    Steps.DeployNamesDiffer();
    PlaceholderIsNoName(i, declared, i - 1);
  }

  lemma PlaceholderIsNoName(i: nat, declared: nat, t: nat)
    requires t < |Steps.DEPLOY|
    ensures Placeholder(i, declared) != Steps.DEPLOY[t]
  {
    assert Placeholder(i, declared)[..2] == "st";
    assert Steps.DEPLOY[t][0] != 's' || Steps.DEPLOY[t][1] != 't';
  }

  /** One of those cases: one stage in, the fallback names step 5 after the push, not the build. */
  lemma LogFallbackMislabelsExtraStages(
      a: seq<Node>, b: seq<Node>, job: JobStatus, rows: Rows, template: seq<string>)
    requires Linear(rows, 4) && rows.Keys != {} && Shown(rows).Keys != {}
    requires template == Steps.DEPLOY && RowsTotal(rows) == 10
    requires IsRowGraph(a, job, rows, template)
    requires IsLogGraph(b, job, Shown(rows), template)
    ensures |a| > 4 && a[4].name == Steps.DEPLOY[3]
    ensures |b| > 4 && b[4].name == Steps.DEPLOY[4]
  {
  }
}
