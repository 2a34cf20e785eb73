/** How a worker records a job: the step rows `_step` and `_mark_job` rewrite, the capped
    log they print to, and the status of the job itself.

    Every write is an event; `Apply` says what one event does to the stored state, and a
    run is a sequence of events. `JobRecord` is the mutable record the worker holds. */
module Recorder {
  import opened Wrappers
  import opened Text
  import opened Sets
  import JobLog

  datatype JobStatus = Queued | Running | Succeeded | Failed | Cancelled | Interrupted

  datatype StepStatus = StepRunning | StepSucceeded | StepFailed

  /** One row of `job_steps`. A row is open while it has no finishing time. */
  datatype Row = Row(
    total: nat,
    name: string,
    status: StepStatus,
    startedAt: int,
    finishedAt: Option<int>,
    error: Option<string>)

  /** The rows of one job, keyed by step index: (job_id, step_index) is unique. */
  type Rows = map<nat, Row>

  datatype JobState = JobState(
    status: JobStatus,
    error: Option<string>,
    finishedAt: Option<int>,
    rows: Rows,
    log: string)

  datatype Event =
    // The clock is read twice: for the end of the row that is closed, and for the start of the new one.
    | StepCall(index: nat, total: nat, name: string, closing: int, at: int)
    | Line(text: string)
    | Mark(outcome: JobStatus, reason: Option<string>, at: int)
    // Writes that change the job's own status and leave the rows alone: task start,
    // cancellation, worker shutdown, the stale-job reaper.
    | Overwrite(status: JobStatus, at: int)

  /** What can go wrong in a write: two open rows where the query expects at most one,
      or a job marked non-terminal while a row is open (its clock import is then unbound). */
  datatype Applied = Stored(state: JobState) | MultipleOpenRows | UnboundClock

  const ERROR_CAP: nat := 500

  predicate IsOpen(row: Row) {
    row.finishedAt.None?
  }

  function OpenRows(rows: Rows): set<nat> {
    set i | i in rows && IsOpen(rows[i])
  }

  predicate IsMarkTerminal(status: JobStatus) {
    status == Succeeded || status == Failed || status == Cancelled
  }

  function CloseOpen(rows: Rows, status: StepStatus, at: int, error: Option<string>): Rows {
    map i | i in rows :: if !IsOpen(rows[i]) then rows[i] else
      rows[i].(status := status, finishedAt := Some(at), error := if error.Some? then error else rows[i].error)
  }

  /** The text of a step marker in the log. */
  function Marker(index: nat, total: nat, name: string): string {
    "[" + Decimal(index) + "/" + Decimal(total) + "] " + name
  }

  function Logged(log: string, text: string, scrub: string -> string): string {
    JobLog.Appended(log, scrub(text) + "\n", JobLog.LOG_CAP, JobLog.TruncationMarker())
  }

  /** `error[:500]`, kept only for an error that is present, not empty, and not on success. */
  function StepError(outcome: JobStatus, reason: Option<string>): Option<string> {
    if reason.None? || reason.value == "" || outcome == Succeeded then None
    else if |reason.value| > ERROR_CAP then Some(reason.value[..ERROR_CAP])
    else reason
  }

  function Apply(s: JobState, e: Event, scrub: string -> string): Applied {
    match e
    case Line(text) => Stored(s.(log := Logged(s.log, text, scrub)))
    case Overwrite(status, at) => Stored(s.(status := status))
    case StepCall(index, total, name, closing, at) =>
      var log := Logged(s.log, Marker(index, total, name), scrub);
      if index in s.rows then
        var row := s.rows[index].(total := total, name := name, status := StepRunning, finishedAt := None);
        Stored(s.(rows := s.rows[index := row], log := log))
      else if |OpenRows(s.rows)| > 1 then
        MultipleOpenRows
      else
        var row := Row(total, name, StepRunning, at, None, None);
        Stored(s.(rows := CloseOpen(s.rows, StepSucceeded, closing, None)[index := row], log := log))
    case Mark(outcome, reason, at) =>
      if |OpenRows(s.rows)| > 1 then MultipleOpenRows
      else if OpenRows(s.rows) != {} && !IsMarkTerminal(outcome) then UnboundClock
      else
        var status := if outcome == Succeeded then StepSucceeded else StepFailed;
        Stored(s.(
          status := outcome,
          error := reason,
          finishedAt := if IsMarkTerminal(outcome) then Some(at) else s.finishedAt,
          rows := CloseOpen(s.rows, status, at, StepError(outcome, reason))))
  }

  /** Ending a job raises on a second open row, and on an open row when the job is not over. */
  lemma MarkRaisesIff(s: JobState, outcome: JobStatus, reason: Option<string>, at: int, scrub: string -> string)
    ensures var r := Apply(s, Mark(outcome, reason, at), scrub);
            && (r.MultipleOpenRows? <==>
                  exists i, j :: i in s.rows && j in s.rows && i != j && s.rows[i].finishedAt == s.rows[j].finishedAt == None)
            && (r.UnboundClock? <==>
                  && !r.MultipleOpenRows? && outcome !in {Succeeded, Failed, Cancelled}
                  && exists i :: i in s.rows && s.rows[i].finishedAt == None)
  {
    hide CloseOpen, StepError;
    TwoOpenRows(s.rows);
    assert OpenRows(s.rows) != {} <==> exists i :: i in s.rows && s.rows[i].finishedAt == None by {
      assert forall i :: i in OpenRows(s.rows) <==> i in s.rows && s.rows[i].finishedAt == None;
    }
  }

  /** Otherwise the open row is closed with the job's outcome and at most 500 characters of the
      reason for it, and no other row changes. */
  lemma MarkIs(s: JobState, outcome: JobStatus, reason: Option<string>, at: int, scrub: string -> string)
    requires Apply(s, Mark(outcome, reason, at), scrub).Stored?
    ensures var r := Apply(s, Mark(outcome, reason, at), scrub).state;
            && r.status == outcome && r.error == reason && r.log == s.log
            && r.finishedAt == (if outcome in {Succeeded, Failed, Cancelled} then Some(at) else s.finishedAt)
            && r.rows.Keys == s.rows.Keys
            && (forall i :: i in s.rows ==> IsClosedBy(s.rows[i], r.rows[i], outcome, reason, at))
  {
    hide OpenRows;
  }

  predicate IsClosedBy(before: Row, after: Row, outcome: JobStatus, reason: Option<string>, at: int) {
    if before.finishedAt.Some? then after == before
    else
      && after.total == before.total && after.name == before.name && after.startedAt == before.startedAt
      && after.status == (if outcome == Succeeded then StepSucceeded else StepFailed)
      && after.finishedAt == Some(at)
      && (if outcome == Succeeded || reason == None || reason == Some("") then after.error == before.error
          else after.error.Some? && after.error.value <= reason.value
               && |after.error.value| == if |reason.value| < 500 then |reason.value| else 500)
  }

  lemma TwoOpenRows(rows: Rows)
    ensures |OpenRows(rows)| > 1 <==>
            exists i, j :: i in rows && j in rows && i != j && rows[i].finishedAt == rows[j].finishedAt == None
  {
    var open := OpenRows(rows);
    if |open| > 1 {
      var i :| i in open;
      assert |open - {i}| == |open| - 1;
      var j :| j in open - {i};
      assert i != j && rows[i].finishedAt == rows[j].finishedAt == None;
    }
    if i, j :| i in rows && j in rows && i != j && rows[i].finishedAt == rows[j].finishedAt == None {
      SubsetSize({i, j}, open);
    }
  }

  /** Announcing a step, row by row: a new index raises on a second open row, closes the open one as
      succeeded and adds an open row; an index seen before only opens its row again. */
  lemma StepIs(s: JobState, index: nat, total: nat, name: string, closing: int, at: int, scrub: string -> string)
    ensures var r := Apply(s, StepCall(index, total, name, closing, at), scrub);
            && (!r.Stored? <==>
                  && index !in s.rows
                  && exists i, j :: i in s.rows && j in s.rows && i != j && s.rows[i].finishedAt == s.rows[j].finishedAt == None)
            && (r.Stored? ==>
                  && r.state.status == s.status && r.state.error == s.error && r.state.finishedAt == s.finishedAt
                  && r.state.rows.Keys == s.rows.Keys + {index}
                  && r.state.rows[index].status == StepRunning && r.state.rows[index].finishedAt == None
                  && r.state.rows[index].total == total && r.state.rows[index].name == name
                  && (if index in s.rows then
                        && r.state.rows[index].startedAt == s.rows[index].startedAt
                        && r.state.rows[index].error == s.rows[index].error
                        && forall i :: i in s.rows && i != index ==> r.state.rows[i] == s.rows[i]
                      else
                        && r.state.rows[index].startedAt == at && r.state.rows[index].error == None
                        && forall i :: i in s.rows ==>
                             r.state.rows[i] == (if s.rows[i].finishedAt.Some? then s.rows[i] else
                                                   s.rows[i].(status := StepSucceeded, finishedAt := Some(closing)))))
  {
    hide Logged;
    TwoOpenRows(s.rows);
  }

  /** A whole run; the first write that raises ends it. */
  function Run(s: JobState, events: History<Event>, scrub: string -> string): Applied {
    match events
    case Start => Stored(s)
    case Then(earlier, e) =>
      var before := Run(s, earlier, scrub);
      if before.Stored? then Apply(before.state, e, scrub) else before
  }

  function Fresh(status: JobStatus): JobState {
    JobState(status, None, None, map[], "")
  }

  // ----- the mutable record -----

  class JobRecord {
    var status: JobStatus
    var error: Option<string>
    var finishedAt: Option<int>
    var rows: Rows
    var log: string
    const scrub: string -> string

    ghost const origin: JobState
    ghost var events: History<Event>

    constructor (status: JobStatus, scrub: string -> string)
      ensures Valid() && this.scrub == scrub && this.origin == Fresh(status) && events == Start
    {
      this.status, error, finishedAt, rows, log := status, None, None, map[], "";
      this.scrub, this.origin, events := scrub, Fresh(status), Start;
    }

    function State(): JobState
      reads this
    {
      JobState(status, error, finishedAt, rows, log)
    }

    /** The stored state is exactly what the history of writes makes of the starting state. */
    ghost predicate Valid()
      reads this
    {
      Run(origin, events, scrub) == Stored(State())
    }

    /** The text of one log write: append, and drop the head beyond the cap. */
    method WriteLog(text: string)
      modifies this`log
      ensures log == Logged(old(log), text, scrub)
    {
      hide JobLog.TruncationMarker;
      var chunk := scrub(text) + "\n";
      var marker := JobLog.TruncationMarker();
      var grown := log + chunk;
      if |grown| > JobLog.LOG_CAP {
        var front := if marker <= log then "" else marker;
        grown := front + grown[|grown| - (JobLog.LOG_CAP - |front|)..];
      }
      log := grown;
    }

    method AppendLog(text: string)
      requires Valid()
      modifies this
      ensures Valid() && events == Then(old(events), Line(text))
      ensures State() == old(State()).(log := Logged(old(log), text, scrub))
    {
      WriteLog(text);
      events := Then(events, Line(text));
    }

    method Overwrite(status: JobStatus, now: int)
      requires Valid()
      modifies this
      ensures Valid() && events == Then(old(events), Event.Overwrite(status, now))
      ensures State() == old(State()).(status := status)
    {
      this.status := status;
      events := Then(events, Event.Overwrite(status, now));
    }

    /** Whatever others write to the job's status meanwhile, any number of times: a cancellation, a
        shutdown, the stale-job reaper. */
    method OthersWrite()
      requires Valid()
      modifies this
      ensures Valid() && OnlyOverwrites(old(events), events)
      ensures State() == old(State()).(status := status)
    {
      hide Run;
      var writes: nat :| true;
      for i := 0 to writes
        invariant Valid() && OnlyOverwrites(old(events), events)
        invariant State() == old(State()).(status := status)
      {
        var status: JobStatus := *;
        var now: int := *;
        Overwrite(status, now);
      }
    }

    /** The row part of a step: reopen the row of this index, or close the open row and add
        one. Finding two open rows is an error, and then nothing is changed. */
    method OpenRow(index: nat, total: nat, name: string, closing: int, now: int) returns (raised: bool)
      modifies this`rows
      ensures raised <==> index !in old(rows) && |OpenRows(old(rows))| > 1
      ensures rows ==
              if raised then old(rows)
              else if index in old(rows) then
                old(rows)[index := old(rows)[index].(total := total, name := name, status := StepRunning, finishedAt := None)]
              else
                CloseOpen(old(rows), StepSucceeded, closing, None)[index := Row(total, name, StepRunning, now, None, None)]
    {
      if index in rows {
        rows := rows[index := rows[index].(total := total, name := name, status := StepRunning, finishedAt := None)];
        return false;
      }
      var open := OpenRows(rows);
      if |open| > 1 {
        return true;
      }
      if open != {} {
        var p :| p in open;
        OnlyOpenRow(rows, p);
        CloseOpenClosesOne(rows, p, StepSucceeded, closing, None);
        rows := rows[p := rows[p].(finishedAt := Some(closing), status := StepSucceeded)];
      } else {
        CloseOpenOfNone(rows, StepSucceeded, closing, None);
      }
      rows := rows[index := Row(total, name, StepRunning, now, None, None)];
      return false;
    }

    /** Opens step `index`, closing the previous one; a call that raises changes nothing. */
    method Step(index: nat, total: nat, name: string, closing: int, now: int) returns (raised: bool)
      requires Valid()
      modifies this
      ensures Valid()
      ensures raised <==> Apply(old(State()), StepCall(index, total, name, closing, now), scrub).MultipleOpenRows?
      ensures raised ==> State() == old(State()) && events == old(events)
      ensures !raised ==>
                && Apply(old(State()), StepCall(index, total, name, closing, now), scrub) == Stored(State())
                && events == Then(old(events), StepCall(index, total, name, closing, now))
    {
      raised := OpenRow(index, total, name, closing, now);
      if !raised {
        WriteLog(Marker(index, total, name));
        events := Then(events, StepCall(index, total, name, closing, now));
      }
    }

    /** Ends the job and closes the last open step. */
    method MarkJob(outcome: JobStatus, reason: Option<string>, now: int) returns (raised: bool)
      requires Valid()
      modifies this
      ensures Valid()
      ensures raised <==> !Apply(old(State()), Mark(outcome, reason, now), scrub).Stored?
      ensures raised ==> State() == old(State()) && events == old(events)
      ensures !raised ==>
                && Apply(old(State()), Mark(outcome, reason, now), scrub) == Stored(State())
                && events == Then(old(events), Mark(outcome, reason, now))
    {
      raised := CloseLastRow(outcome, reason, now);
      if !raised {
        status, error := outcome, reason;
        if IsMarkTerminal(outcome) {
          finishedAt := Some(now);
        }
        events := Then(events, Mark(outcome, reason, now));
      }
    }

    /** The row part of ending a job: the open row, if any, is closed with the job's outcome. */
    method CloseLastRow(outcome: JobStatus, reason: Option<string>, now: int) returns (raised: bool)
      modifies this`rows
      ensures raised <==> |OpenRows(old(rows))| > 1 || (OpenRows(old(rows)) != {} && !IsMarkTerminal(outcome))
      ensures rows == if raised then old(rows) else
                        CloseOpen(old(rows), if outcome == Succeeded then StepSucceeded else StepFailed, now,
                                  StepError(outcome, reason))
    {
      var open := OpenRows(rows);
      if |open| > 1 {
        return true;
      }
      var closing := if outcome == Succeeded then StepSucceeded else StepFailed;
      if open == {} {
        CloseOpenOfNone(rows, closing, now, StepError(outcome, reason));
        return false;
      }
      if !IsMarkTerminal(outcome) {
        return true;
      }
      var p :| p in open;
      OnlyOpenRow(rows, p);
      CloseOpenClosesOne(rows, p, closing, now, StepError(outcome, reason));
      var row := rows[p].(finishedAt := Some(now), status := closing);
      if reason.Some? && reason.value != "" && outcome != Succeeded {
        row := row.(error := Some(if |reason.value| > ERROR_CAP then reason.value[..ERROR_CAP] else reason.value));
      }
      rows := rows[p := row];
      return false;
    }
  }

  lemma OnlyOpenRow(rows: Rows, p: nat)
    requires p in OpenRows(rows) && |OpenRows(rows)| <= 1
    ensures OpenRows(rows) == {p}
  {
    var rest := OpenRows(rows) - {p};
    assert OpenRows(rows) == rest + {p};
    assert |rest| == 0;
  }

  lemma CloseOpenClosesOne(rows: Rows, p: nat, status: StepStatus, at: int, error: Option<string>)
    requires OpenRows(rows) == {p}
    ensures CloseOpen(rows, status, at, error) ==
            rows[p := rows[p].(status := status, finishedAt := Some(at),
                               error := if error.Some? then error else rows[p].error)]
  {
    assert p in OpenRows(rows);
    forall i | i in rows && i != p
      ensures !IsOpen(rows[i])
    {
      assert i !in OpenRows(rows);
    }
  }

  lemma CloseOpenOfNone(rows: Rows, status: StepStatus, at: int, error: Option<string>)
    requires OpenRows(rows) == {}
    ensures CloseOpen(rows, status, at, error) == rows
  {
    forall i | i in rows
      ensures !IsOpen(rows[i])
    {
      assert i !in OpenRows(rows);
    }
  }

  // ----- the discipline that keeps the rows readable -----

  /** Rows 1 to `k`, all but the last closed and succeeded, the last one open. */
  ghost predicate Linear(rows: Rows, k: nat) {
    && (forall i :: i in rows <==> 1 <= i <= k)
    && (forall i :: 1 <= i < k ==> !IsOpen(rows[i]) && rows[i].status == StepSucceeded)
    && (k >= 1 ==> IsOpen(rows[k]) && rows[k].status == StepRunning)
  }

  /** Rows 1 to `k`, all closed, succeeded up to a last one with status `last`. */
  ghost predicate Ended(rows: Rows, k: nat, last: StepStatus) {
    && (forall i :: i in rows <==> 1 <= i <= k)
    && (forall i :: 1 <= i <= k ==> !IsOpen(rows[i]))
    && (forall i :: 1 <= i < k ==> rows[i].status == StepSucceeded)
    && (k >= 1 ==> rows[k].status == last)
  }

  lemma LinearOpenRows(rows: Rows, k: nat)
    requires Linear(rows, k)
    ensures OpenRows(rows) == if k >= 1 then {k} else {}
  {
  }

  lemma ReopenedLastIsLinear(s: JobState, k: nat, total: nat, name: string, closing: int, at: int, scrub: string -> string)
    requires Linear(s.rows, k) && k >= 1
    ensures var r := Apply(s, StepCall(k, total, name, closing, at), scrub);
            r.Stored? && Linear(r.state.rows, k)
  {
    hide JobLog.Appended;
  }

  lemma NextStepIsLinear(s: JobState, k: nat, total: nat, name: string, closing: int, at: int, scrub: string -> string)
    requires Linear(s.rows, k)
    ensures var r := Apply(s, StepCall(k + 1, total, name, closing, at), scrub);
            r.Stored? && Linear(r.state.rows, k + 1)
  {
    hide Logged, Marker;
    LinearOpenRows(s.rows, k);
    hide OpenRows;
    var next := k + 1;
    assert next !in s.rows;
  }

  lemma OtherStepIsNotLinear(s: JobState, k: nat, index: nat, total: nat, name: string, closing: int, at: int, scrub: string -> string)
    requires Linear(s.rows, k) && !(index == k + 1 || (index == k && k >= 1))
    ensures var r := Apply(s, StepCall(index, total, name, closing, at), scrub);
            r.Stored? && forall k' :: !Linear(r.state.rows, k')
  {
    hide JobLog.Appended;
    LinearOpenRows(s.rows, k);
    var r := Apply(s, StepCall(index, total, name, closing, at), scrub).state.rows;
    forall k'
      ensures !Linear(r, k')
    {
      if 1 <= index < k {
        assert IsOpen(r[index]) && IsOpen(r[k]);
      } else if index > k + 1 {
        var missing := k + 1;
        assert index in r && missing !in r;
      } else {
        assert 0 in r;
      }
    }
  }

  /** Opening step `index` keeps the rows linear exactly when it is the next step or the
      current one again: a lower index leaves two open rows, a higher one leaves a gap. */
  lemma StepKeepsLinear(s: JobState, k: nat, index: nat, total: nat, name: string, closing: int, at: int, scrub: string -> string)
    requires Linear(s.rows, k)
    ensures var r := Apply(s, StepCall(index, total, name, closing, at), scrub);
            && r.Stored?
            && (index == k + 1 || (index == k && k >= 1) <==> exists k' :: Linear(r.state.rows, k'))
            && (index == k + 1 || (index == k && k >= 1) ==> Linear(r.state.rows, index))
  {
    hide Linear, Apply;
    if index == k + 1 {
      NextStepIsLinear(s, k, total, name, closing, at, scrub);
    } else if index == k && k >= 1 {
      ReopenedLastIsLinear(s, k, total, name, closing, at, scrub);
    } else {
      OtherStepIsNotLinear(s, k, index, total, name, closing, at, scrub);
    }
  }

  /** Reopening a row does not close any other, so a repeated index keeps "at most one open
      row", which the next query relies on, exactly when no other row was open. */
  lemma ReopenNeedsNoOtherOpen(s: JobState, index: nat, total: nat, name: string, closing: int, at: int, scrub: string -> string)
    requires index in s.rows && |OpenRows(s.rows)| <= 1
    ensures var r := Apply(s, StepCall(index, total, name, closing, at), scrub);
            r.Stored? && (|OpenRows(r.state.rows)| <= 1 <==> OpenRows(s.rows) <= {index})
  {
    hide JobLog.Appended;
    var r := Apply(s, StepCall(index, total, name, closing, at), scrub).state;
    assert OpenRows(r.rows) == OpenRows(s.rows) + {index};
    if !(OpenRows(s.rows) <= {index}) {
      var p :| p in OpenRows(s.rows) && p != index;
      assert {p, index} <= OpenRows(r.rows);
      SubsetSize({p, index}, OpenRows(r.rows));
    } else {
      assert OpenRows(r.rows) == {index};
    }
  }

  /** The shortest misuse: steps 1, 2, 1 leave two rows open, and step 3 then raises. */
  lemma RevisitedStepRaises(scrub: string -> string)
    ensures var steps := Then(Then(Then(Start, StepCall(1, 3, "a", 0, 0)), StepCall(2, 3, "b", 1, 1)), StepCall(1, 3, "a", 2, 2));
            && Run(Fresh(Running), steps, scrub).Stored?
            && Run(Fresh(Running), Then(steps, StepCall(3, 3, "c", 3, 3)), scrub) == MultipleOpenRows
  {
    hide JobLog.Appended;
    var h1 := Then(Start, StepCall(1, 3, "a", 0, 0));
    StepKeepsLinear(Fresh(Running), 0, 1, 3, "a", 0, 0, scrub);
    var s1 := Run(Fresh(Running), h1, scrub).state;
    StepKeepsLinear(s1, 1, 2, 3, "b", 1, 1, scrub);
    var h2 := Then(h1, StepCall(2, 3, "b", 1, 1));
    var s2 := Run(Fresh(Running), h2, scrub).state;
    LinearOpenRows(s2.rows, 2);
    ReopenNeedsNoOtherOpen(s2, 1, 3, "a", 2, 2, scrub);
    var s3 := Run(Fresh(Running), Then(h2, StepCall(1, 3, "a", 2, 2)), scrub).state;
    assert 3 !in s3.rows;
  }

  lemma MarkEndsLinear(s: JobState, k: nat, outcome: JobStatus, reason: Option<string>, at: int, scrub: string -> string)
    requires Linear(s.rows, k) && IsMarkTerminal(outcome)
    ensures var r := Apply(s, Mark(outcome, reason, at), scrub);
            && r.Stored?
            && r.state.status == outcome
            && Ended(r.state.rows, k, if outcome == Succeeded then StepSucceeded else StepFailed)
  {
    hide JobLog.Appended;
    LinearOpenRows(s.rows, k);
  }

  // ----- whole runs -----

  /** How many steps have been announced. */
  function CallCount(events: History<Event>): nat {
    match events
    case Start => 0
    case Then(earlier, e) => CallCount(earlier) + if e.StepCall? then 1 else 0
  }

  /** The index announced last, 0 before the first announcement. */
  function LastIndex(events: History<Event>): nat {
    match events
    case Start => 0
    case Then(earlier, e) => if e.StepCall? then e.index else LastIndex(earlier)
  }

  /** `after` is `before` with nothing but overwritten statuses behind it. */
  predicate OnlyOverwrites(before: History<Event>, after: History<Event>) {
    after == before || (after.Then? && after.last.Overwrite? && OnlyOverwrites(before, after.before))
  }

  /** Overwriting the status announces nothing and ends nothing. */
  lemma {:induction false} OverwritesAnnounceNothing(before: History<Event>, after: History<Event>)
    requires OnlyOverwrites(before, after)
    ensures CallCount(after) == CallCount(before) && IsOver(after) == IsOver(before)
    decreases after
  {
    if after != before {
      OverwritesAnnounceNothing(before, after.before);
    }
  }

  /** The job has been marked over. */
  predicate IsOver(events: History<Event>) {
    match events
    case Start => false
    case Then(earlier, e) => e.Mark? || IsOver(earlier)
  }

  /** How the last step of a job that is over was closed. */
  function ClosedAs(events: History<Event>): StepStatus {
    match events
    case Start => StepRunning
    case Then(earlier, Mark(outcome, _, _)) => if outcome == Succeeded then StepSucceeded else StepFailed
    case Then(earlier, _) => ClosedAs(earlier)
  }

  /** Indices start at 1, each call repeats the last index or takes the next one, and the
      job is marked over at most once, after its last step. */
  predicate Disciplined(events: History<Event>) {
    match events
    case Start => true
    case Then(earlier, e) =>
      && Disciplined(earlier)
      && (e.StepCall? || e.Mark? ==> !IsOver(earlier))
      && (e.Mark? ==> IsMarkTerminal(e.outcome))
      && (e.StepCall? ==> 1 <= e.index && LastIndex(earlier) <= e.index <= LastIndex(earlier) + 1)
  }

  /** Any disciplined run, however its status is overwritten and its log filled on the way,
      never meets two open rows. While it goes on, its rows are linear and the open one has
      the largest index; once it is over, every row is closed and only the last can have failed. */
  lemma {:induction false} DisciplinedRunShape(s: JobState, events: History<Event>, scrub: string -> string)
    requires s.rows == map[]
    requires Disciplined(events)
    ensures var r := Run(s, events, scrub);
            && r.Stored?
            && (!IsOver(events) ==> Linear(r.state.rows, LastIndex(events)))
            && (IsOver(events) ==> Ended(r.state.rows, LastIndex(events), ClosedAs(events)))
  {
    match events
    case Start =>
    case Then(earlier, e) =>
      hide JobLog.Appended;
      DisciplinedRunShape(s, earlier, scrub);
      var before, k := Run(s, earlier, scrub).state, LastIndex(earlier);
      if e.StepCall? {
        StepKeepsLinear(before, k, e.index, e.total, e.name, e.closing, e.at, scrub);
      } else if e.Mark? {
        MarkEndsLinear(before, k, e.outcome, e.reason, e.at, scrub);
      }
  }

  /** The clock does not go back between the two readings of a step. */
  predicate IsTimely(events: History<Event>) {
    match events
    case Start => true
    case Then(earlier, e) => IsTimely(earlier) && (e.StepCall? ==> e.closing <= e.at)
  }

  /** Step `i` ended by the time the next one started. */
  predicate Abuts(rows: Rows, i: nat) {
    var next := i + 1;
    i in rows && next in rows && rows[i].finishedAt.Some? && rows[i].finishedAt.value <= rows[next].startedAt
  }

  ghost predicate Tiled(rows: Rows, k: nat) {
    forall i :: 1 <= i < k ==> Abuts(rows, i)
  }

  lemma StepKeepsTiled(
      s: JobState, k: nat, index: nat, total: nat, name: string, closing: int, at: int, scrub: string -> string)
    requires Linear(s.rows, k) && Tiled(s.rows, k) && closing <= at
    requires index == k + 1 || (index == k && k >= 1)
    ensures var r := Apply(s, StepCall(index, total, name, closing, at), scrub);
            r.Stored? && Tiled(r.state.rows, index)
  {
    hide JobLog.Appended;
    LinearOpenRows(s.rows, k);
    var r := Apply(s, StepCall(index, total, name, closing, at), scrub).state.rows;
    forall i | 1 <= i < index
      ensures Abuts(r, i)
    {
      if i < k {
        assert Abuts(s.rows, i);
      }
    }
  }

  lemma MarkKeepsTiled(s: JobState, k: nat, outcome: JobStatus, reason: Option<string>, at: int, scrub: string -> string)
    requires Linear(s.rows, k) && Tiled(s.rows, k) && IsMarkTerminal(outcome)
    ensures var r := Apply(s, Mark(outcome, reason, at), scrub);
            r.Stored? && Tiled(r.state.rows, k)
  {
    LinearOpenRows(s.rows, k);
    var r := Apply(s, Mark(outcome, reason, at), scrub).state.rows;
    forall i | 1 <= i < k
      ensures Abuts(r, i)
    {
      assert Abuts(s.rows, i);
    }
  }

  /** The steps of a disciplined run do not overlap: each has ended by the time the next one starts. */
  lemma {:induction false} StepsTileTheRun(s: JobState, events: History<Event>, scrub: string -> string)
    requires s.rows == map[]
    requires Disciplined(events) && IsTimely(events)
    ensures Run(s, events, scrub).Stored?
    ensures Tiled(Run(s, events, scrub).state.rows, LastIndex(events))
  {
    hide JobLog.Appended, Tiled, Linear;
    match events
    case Start => NothingToTile(s.rows);
    case Then(earlier, e) =>
      StepsTileTheRun(s, earlier, scrub);
      DisciplinedRunShape(s, earlier, scrub);
      var before, k := Run(s, earlier, scrub).state, LastIndex(earlier);
      if e.StepCall? {
        StepKeepsTiled(before, k, e.index, e.total, e.name, e.closing, e.at, scrub);
      } else if e.Mark? {
        MarkKeepsTiled(before, k, e.outcome, e.reason, e.at, scrub);
      }
  }

  lemma NothingToTile(rows: Rows)
    ensures Tiled(rows, 0)
  {
  }

  /** When each index was announced for the first time. */
  function FirstStarts(events: History<Event>): map<nat, int> {
    match events
    case Start => map[]
    case Then(earlier, e) =>
      if e.StepCall? && e.index !in FirstStarts(earlier) then FirstStarts(earlier)[e.index := e.at] else FirstStarts(earlier)
  }

  function Starts(rows: Rows): map<nat, int> {
    map i | i in rows :: rows[i].startedAt
  }

  /** For every run that does not raise, disciplined or not, a row shows when its step was announced for
      the first time; opening it again does not change that. */
  lemma {:induction false} RowsKeepTheirStart(s: JobState, events: History<Event>, scrub: string -> string)
    requires s.rows == map[]
    requires Run(s, events, scrub).Stored?
    ensures Starts(Run(s, events, scrub).state.rows) == FirstStarts(events)
  {
    match events
    case Start =>
    case Then(earlier, e) =>
      hide JobLog.Appended;
      RowsKeepTheirStart(s, earlier, scrub);
      EventKeepsStarts(Run(s, earlier, scrub).state, e, scrub);
  }

  lemma EventKeepsStarts(s: JobState, e: Event, scrub: string -> string)
    requires Apply(s, e, scrub).Stored?
    ensures Starts(Apply(s, e, scrub).state.rows) ==
            if e.StepCall? && e.index !in Starts(s.rows) then Starts(s.rows)[e.index := e.at] else Starts(s.rows)
  {
    hide JobLog.Appended;
  }

  /** Last write wins: the total and name most recently announced for each index. */
  function Announced(events: History<Event>): map<nat, (nat, string)> {
    match events
    case Start => map[]
    case Then(earlier, e) =>
      if e.StepCall? then Announced(earlier)[e.index := (e.total, e.name)] else Announced(earlier)
  }

  /** What the rows show of the steps, apart from status and times. */
  function Shown(rows: Rows): map<nat, (nat, string)> {
    map i | i in rows :: (rows[i].total, rows[i].name)
  }

  /** For every run that does not raise, disciplined or not, there is a row for exactly the
      indices announced, and each row shows the total and the name announced last. */
  lemma {:induction false} RowsShowAnnounced(s: JobState, events: History<Event>, scrub: string -> string)
    requires s.rows == map[]
    requires Run(s, events, scrub).Stored?
    ensures Shown(Run(s, events, scrub).state.rows) == Announced(events)
  {
    match events
    case Start =>
    case Then(earlier, e) =>
      hide JobLog.Appended;
      RowsShowAnnounced(s, earlier, scrub);
      EventUpdatesShown(Run(s, earlier, scrub).state, e, scrub);
  }

  lemma EventUpdatesShown(s: JobState, e: Event, scrub: string -> string)
    requires Apply(s, e, scrub).Stored?
    ensures Shown(Apply(s, e, scrub).state.rows) ==
            if e.StepCall? then Shown(s.rows)[e.index := (e.total, e.name)] else Shown(s.rows)
  {
    hide JobLog.Appended;
  }
}
