/** Queueing deploys from many requests at once: check, insert under the partial unique index,
    and, on a conflict, read again. Each database call is one step, and steps of different
    requests, and of workers moving jobs between statuses, interleave in any order. */
module QueueDeploy {
  import opened Wrappers
  import opened Recorder

  datatype JobRow = JobRow(deployment: nat, isDeploy: bool, status: JobStatus, createdAt: int)

  type Table = map<nat, JobRow>

  datatype Outcome = Created(job: nat) | Refused(active: nat) | Conflict

  /** Where a request is: about to check, about to insert, about to read again, or finished. */
  datatype Pc = Checking | Inserting | Rereading | Done(outcome: Outcome)

  datatype Request = Request(deployment: nat, pc: Pc)

  datatype Store = Store(jobs: Table, requests: map<nat, Request>)

  datatype Action =
    | Submit(r: nat, deployment: nat)
    | Check(r: nat, answer: Option<nat>)
    | Insert(r: nat, id: nat, at: int)
    | Reread(r: nat, answer: Option<nat>)
    | Move(id: nat, status: JobStatus)
    | AddOther(id: nat, row: JobRow)

  predicate IsActive(row: JobRow) {
    row.isDeploy && (row.status == Queued || row.status == Running)
  }

  predicate IsActiveFor(jobs: Table, deployment: nat, id: nat) {
    id in jobs && IsActive(jobs[id]) && jobs[id].deployment == deployment
  }

  /** The partial unique index: at most one active deploy job for each deployment. */
  predicate IndexHolds(jobs: Table) {
    forall i, j :: (i in jobs && j in jobs && IsActive(jobs[i]) && IsActive(jobs[j])
                    && jobs[i].deployment == jobs[j].deployment) ==> i == j
  }

  /** An answer the query for the active deploy job may give: the newest one, or none if there is none. */
  predicate IsAnswer(jobs: Table, deployment: nat, answer: Option<nat>) {
    match answer
    case None => forall id :: id in jobs ==> !IsActiveFor(jobs, deployment, id)
    case Some(id) =>
      && IsActiveFor(jobs, deployment, id)
      && forall j :: j in jobs && IsActiveFor(jobs, deployment, j) ==> jobs[j].createdAt <= jobs[id].createdAt
  }

  predicate At(s: Store, r: nat, pc: Pc) {
    r in s.requests && s.requests[r].pc == pc
  }

  function Goto(s: Store, r: nat, pc: Pc): Store
    requires r in s.requests
  {
    s.(requests := s.requests[r := s.requests[r].(pc := pc)])
  }

  /** A write to the table goes through only if the index still holds; otherwise it is rolled back. */
  function Written(s: Store, jobs: Table): Store {
    if IndexHolds(jobs) then s.(jobs := jobs) else s
  }

  /** One step of the system; None when the action is not possible in this state. */
  function Next(s: Store, a: Action): Option<Store> {
    match a
    case Submit(r, deployment) =>
      if r in s.requests then None else Some(s.(requests := s.requests[r := Request(deployment, Checking)]))
    case Check(r, answer) =>
      if At(s, r, Checking) && IsAnswer(s.jobs, s.requests[r].deployment, answer) then
        Some(Goto(s, r, if answer.Some? then Done(Refused(answer.value)) else Inserting))
      else None
    case Insert(r, id, at) =>
      if At(s, r, Inserting) && id !in s.jobs then
        var jobs := s.jobs[id := JobRow(s.requests[r].deployment, true, Queued, at)];
        Some(if IndexHolds(jobs) then Goto(s.(jobs := jobs), r, Done(Created(id))) else Goto(s, r, Rereading))
      else None
    case Reread(r, answer) =>
      if At(s, r, Rereading) && IsAnswer(s.jobs, s.requests[r].deployment, answer) then
        Some(Goto(s, r, Done(if answer.Some? then Refused(answer.value) else Conflict)))
      else None
    case Move(id, status) =>
      if id in s.jobs then Some(Written(s, s.jobs[id := s.jobs[id].(status := status)])) else None
    case AddOther(id, row) =>
      // Jobs of other kinds: provisioning, scans, undeploys.
      if id !in s.jobs && !row.isDeploy then Some(Written(s, s.jobs[id := row])) else None
  }

  /** A run of the system from an empty table; None if one of its actions was not possible. */
  function Run(acts: History<Action>): Option<Store> {
    match acts
    case Start => Some(Store(map[], map[]))
    case Then(before, a) =>
      var s := Run(before);
      if s.None? then None else Next(s.value, a)
  }

  // ----- what the index gives, and what the check does not -----

  /** The index holds after every run, since every write is checked against it. */
  lemma {:induction false} IndexIsKept(acts: History<Action>)
    requires Run(acts).Some?
    ensures IndexHolds(Run(acts).value.jobs)
  {
    match acts
    case Start =>
    case Then(before, a) => IndexIsKept(before);
  }

  /** In every run, two queued or running deploy jobs of one deployment are the same job. It is why
      a request whose insert is refused has lost to a job that it can name. */
  lemma AtMostOneActiveDeploy(acts: History<Action>, i: nat, j: nat)
    requires Run(acts).Some? && i in Run(acts).value.jobs && j in Run(acts).value.jobs
    requires var jobs := Run(acts).value.jobs;
             && jobs[i].isDeploy && jobs[j].isDeploy && jobs[i].deployment == jobs[j].deployment
             && (jobs[i].status == Queued || jobs[i].status == Running)
             && (jobs[j].status == Queued || jobs[j].status == Running)
    ensures i == j
  {
    IndexIsKept(acts);
  }

  /** A read names a job exactly when that is a queued or running deploy job of the deployment right
      then, so a job that has left those statuses refuses nobody; and there is always one answer. */
  lemma ReadNamesTheActiveJob(acts: History<Action>, deployment: nat)
    requires Run(acts).Some?
    ensures var jobs := Run(acts).value.jobs;
            && (exists answer :: IsAnswer(jobs, deployment, answer))
            && (forall x, y :: IsAnswer(jobs, deployment, x) && IsAnswer(jobs, deployment, y) ==> x == y)
            && (forall id :: IsAnswer(jobs, deployment, Some(id)) <==>
                  && id in jobs && jobs[id].isDeploy && jobs[id].deployment == deployment
                  && (jobs[id].status == Queued || jobs[id].status == Running))
            && (IsAnswer(jobs, deployment, None) <==>
                  forall id :: id in jobs && jobs[id].isDeploy && jobs[id].deployment == deployment ==>
                    jobs[id].status != Queued && jobs[id].status != Running)
  {
    IndexIsKept(acts);
    var jobs := Run(acts).value.jobs;
    forall id | id in jobs && IsActiveFor(jobs, deployment, id)
      ensures IsAnswer(jobs, deployment, Some(id))
    {
    }
    if id :| id in jobs && IsActiveFor(jobs, deployment, id) {
      assert IsAnswer(jobs, deployment, Some(id));
    } else {
      assert IsAnswer(jobs, deployment, None);
    }
  }

  /** A request that checks is refused, naming the job, exactly when the deployment has a queued or
      running deploy job, and goes on to insert exactly when it has none. One that reads again after
      a conflict is refused in the same way, or ends with the conflict. */
  lemma RefusedIff(acts: History<Action>, a: Action, r: nat, answer: Option<nat>, id: nat)
    requires a == Check(r, answer) || a == Reread(r, answer)
    requires Run(Then(acts, a)).Some?
    ensures Run(acts).Some? && r in Run(acts).value.requests && r in Run(Then(acts, a)).value.requests
    ensures var s := Run(acts).value;
            var pc := Run(Then(acts, a)).value.requests[r].pc;
            && (pc == Done(Refused(id)) <==>
                  && id in s.jobs && s.jobs[id].isDeploy && s.jobs[id].deployment == s.requests[r].deployment
                  && (s.jobs[id].status == Queued || s.jobs[id].status == Running))
            && (pc == (if a.Check? then Inserting else Done(Conflict)) <==>
                  forall j :: j in s.jobs && s.jobs[j].isDeploy && s.jobs[j].deployment == s.requests[r].deployment ==>
                    s.jobs[j].status != Queued && s.jobs[j].status != Running)
  {
    hide IndexHolds, IsAnswer, IsActive, IsActiveFor;
    var s := Run(acts).value;
    ReadNamesTheActiveJob(acts, s.requests[r].deployment);
    assert IsAnswer(s.jobs, s.requests[r].deployment, answer);
  }

  /** An insert creates the queued job exactly when no deploy job of the deployment is queued or
      running at that moment; otherwise the table stays as it is and the request reads again. */
  lemma CreatedIff(acts: History<Action>, r: nat, id: nat, at: int)
    requires Run(Then(acts, Insert(r, id, at))).Some?
    ensures Run(acts).Some? && r in Run(acts).value.requests
    ensures var s, s' := Run(acts).value, Run(Then(acts, Insert(r, id, at))).value;
            var d := s.requests[r].deployment;
            if exists j :: j in s.jobs && s.jobs[j].isDeploy && s.jobs[j].deployment == d
                           && (s.jobs[j].status == Queued || s.jobs[j].status == Running)
            then s' == Store(s.jobs, s.requests[r := Request(d, Rereading)])
            else s' == Store(s.jobs[id := JobRow(d, true, Queued, at)], s.requests[r := Request(d, Done(Created(id)))])
  {
    hide IsAnswer;
    IndexIsKept(acts);
    var s := Run(acts).value;
    var d := s.requests[r].deployment;
    var jobs := s.jobs[id := JobRow(d, true, Queued, at)];
    if j :| j in s.jobs && s.jobs[j].isDeploy && s.jobs[j].deployment == d
            && (s.jobs[j].status == Queued || s.jobs[j].status == Running) {
      assert IsActive(jobs[j]) && IsActive(jobs[id]);
    } else {
      assert IndexHolds(jobs);
    }
  }

  /** A worker's change of status goes through unless it would make a second deploy job of the
      deployment queued or running; a job of another kind is always added. */
  lemma WrittenIff(acts: History<Action>, a: Action)
    requires (a.Move? || a.AddOther?) && Run(Then(acts, a)).Some?
    ensures Run(acts).Some? && (a.Move? ==> a.id in Run(acts).value.jobs)
    ensures var s, s' := Run(acts).value, Run(Then(acts, a)).value;
            match a
            case AddOther(id, row) => s' == s.(jobs := s.jobs[id := row])
            case Move(id, status) =>
              var row := s.jobs[id];
              if row.isDeploy && (status == Queued || status == Running)
                 && exists j :: j in s.jobs && j != id && s.jobs[j].isDeploy && s.jobs[j].deployment == row.deployment
                                && (s.jobs[j].status == Queued || s.jobs[j].status == Running)
              then s' == s
              else s' == s.(jobs := s.jobs[id := row.(status := status)])
            case _ => true
  {
    hide IsAnswer;
    IndexIsKept(acts);
    var s := Run(acts).value;
    match a
    case AddOther(id, row) => assert IndexHolds(s.jobs[id := row]);
    case Move(id, status) =>
      var jobs := s.jobs[id := s.jobs[id].(status := status)];
      if j :| j in s.jobs && j != id && IsActive(s.jobs[j]) && IsActive(jobs[id]) && s.jobs[j].deployment == s.jobs[id].deployment {
        assert IsActive(jobs[j]);
        assert !IndexHolds(jobs);
      } else {
        assert IndexHolds(jobs);
      }
  }

  /** The check alone would not be enough: two requests for one deployment can both pass it
      before either inserts. */
  lemma BothPassTheCheck()
    ensures var s := Run(Then(Then(Then(Then(Start, Submit(0, 7)), Submit(1, 7)), Check(0, None)), Check(1, None)));
            s.Some? && At(s.value, 0, Inserting) && At(s.value, 1, Inserting)
            && s.value.requests[0].deployment == s.value.requests[1].deployment
  {
  }

  // ----- what a finished request can say -----

  /** At some moment while request `r` was under way, `id` was the deployment's active deploy job. */
  predicate WasActive(acts: History<Action>, r: nat, deployment: nat, id: nat) {
    || (Run(acts).Some? && r in Run(acts).value.requests && IsActiveFor(Run(acts).value.jobs, deployment, id))
    || (acts.Then? && WasActive(acts.before, r, deployment, id))
  }

  /** While the request was under way the deployment had an active job, and later it had none. */
  predicate WasFreed(acts: History<Action>, r: nat, deployment: nat) {
    || (acts.Then? && WasFreed(acts.before, r, deployment))
    || (Run(acts).Some? && IsAnswer(Run(acts).value.jobs, deployment, None)
        && exists id :: id in Run(acts).value.jobs && WasActive(acts, r, deployment, id))
  }

  /** What is true of a request at every moment after the step that got it where it is. */
  ghost predicate Justified(acts: History<Action>, r: nat)
    requires Run(acts).Some? && r in Run(acts).value.requests
  {
    var s := Run(acts).value;
    var d := s.requests[r].deployment;
    match s.requests[r].pc
    case Checking => true
    case Inserting => true
    case Rereading => exists id :: id in s.jobs && WasActive(acts, r, d, id)
    case Done(Created(id)) =>
      && id in s.jobs && s.jobs[id].isDeploy && s.jobs[id].deployment == d && WasActive(acts, r, d, id)
    case Done(Refused(id)) => WasActive(acts, r, d, id)
    case Done(Conflict) => WasFreed(acts, r, d)
  }

  lemma {:induction false} JobsStay(before: History<Action>, a: Action, id: nat)
    requires Run(Then(before, a)).Some? && id in Run(before).value.jobs
    ensures var old_, new_ := Run(before).value.jobs, Run(Then(before, a)).value.jobs;
            id in new_ && new_[id].isDeploy == old_[id].isDeploy && new_[id].deployment == old_[id].deployment
  {
    hide IndexHolds, IsAnswer;
  }

  /** A request other than the one that acts stays where it is, and what justified it still does. */
  lemma StaysJustified(before: History<Action>, a: Action, r: nat)
    requires Run(Then(before, a)).Some? && r in Run(before).value.requests
    requires Run(Then(before, a)).value.requests[r] == Run(before).value.requests[r]
    requires Justified(before, r)
    ensures r in Run(Then(before, a)).value.requests ==> Justified(Then(before, a), r)
  {
    hide IndexHolds, Next;
    var acts := Then(before, a);
    var s, s' := Run(before).value, Run(acts).value;
    var d := s.requests[r].deployment;
    assert forall id :: WasActive(before, r, d, id) ==> WasActive(acts, r, d, id);
    match s.requests[r].pc
    case Checking =>
    case Inserting =>
    case Rereading =>
      var id :| id in s.jobs && WasActive(before, r, d, id);
      JobsStay(before, a, id);
    case Done(Created(id)) =>
      JobsStay(before, a, id);
    case Done(Refused(id)) =>
    case Done(Conflict) =>
  }

  /** An insert that the index refuses was refused because of a job that is active right now. */
  lemma ConflictHasWinner(jobs: Table, deployment: nat, id: nat, at: int)
    requires IndexHolds(jobs) && id !in jobs
    requires !IndexHolds(jobs[id := JobRow(deployment, true, Queued, at)])
    ensures exists w :: w in jobs && IsActiveFor(jobs, deployment, w)
  {
  }

  lemma InsertIsJustified(before: History<Action>, r: nat, id: nat, at: int)
    requires Run(Then(before, Insert(r, id, at))).Some?
    requires r in Run(Then(before, Insert(r, id, at))).value.requests
    ensures Justified(Then(before, Insert(r, id, at)), r)
  {
    var acts := Then(before, Insert(r, id, at));
    var s, s' := Run(before).value, Run(acts).value;
    var d := s.requests[r].deployment;
    IndexIsKept(before);
    if IndexHolds(s.jobs[id := JobRow(d, true, Queued, at)]) {
      assert IsActiveFor(s'.jobs, d, id);
    } else {
      ConflictHasWinner(s.jobs, d, id, at);
      var w :| w in s.jobs && IsActiveFor(s.jobs, d, w);
      assert WasActive(before, r, d, w);
      assert WasActive(acts, r, d, w);
    }
  }

  lemma ReadIsJustified(before: History<Action>, a: Action, r: nat, answer: Option<nat>)
    requires a == Check(r, answer) || a == Reread(r, answer)
    requires Run(Then(before, a)).Some?
    requires r in Run(before).value.requests && Justified(before, r)
    ensures r in Run(Then(before, a)).value.requests && Justified(Then(before, a), r)
  {
  }

  function Actor(a: Action): Option<nat> {
    match a
    case Submit(r, _) => Some(r)
    case Check(r, _) => Some(r)
    case Insert(r, _, _) => Some(r)
    case Reread(r, _) => Some(r)
    case Move(_, _) => None
    case AddOther(_, _) => None
  }

  lemma OthersStay(before: History<Action>, a: Action, r: nat)
    requires Run(Then(before, a)).Some? && r in Run(Then(before, a)).value.requests && Actor(a) != Some(r)
    ensures r in Run(before).value.requests
    ensures Run(Then(before, a)).value.requests[r] == Run(before).value.requests[r]
  {
    hide IndexHolds, IsAnswer;
  }

  /** In every run, every request is justified at every moment. A finished one has ended in
      exactly one of three ways: it created a job, which was then the deployment's active one;
      it was refused over a job that was active when it was read; or it reports the conflict,
      and between the insert that lost and the second read the winner had stopped. */
  lemma {:induction false} EveryOutcomeIsJustified(acts: History<Action>, r: nat)
    requires Run(acts).Some? && r in Run(acts).value.requests
    ensures Justified(acts, r)
  {
    hide Next, IndexHolds, IsAnswer, WasActive, WasFreed, Justified;
    match acts
    case Start => assert false;
    case Then(before, a) =>
      if Actor(a) != Some(r) {
        OthersStay(before, a, r);
        EveryOutcomeIsJustified(before, r);
        StaysJustified(before, a, r);
      } else {
        match a
        case Submit(_, _) => SubmitIsJustified(before, a, r);
        case Check(_, answer) =>
          ActorIsThere(before, a, r);
          EveryOutcomeIsJustified(before, r);
          ReadIsJustified(before, a, r, answer);
        case Reread(_, answer) =>
          ActorIsThere(before, a, r);
          EveryOutcomeIsJustified(before, r);
          ReadIsJustified(before, a, r, answer);
        case Insert(_, id, at) => InsertIsJustified(before, r, id, at);
      }
  }

  lemma SubmitIsJustified(before: History<Action>, a: Action, r: nat)
    requires a.Submit? && a.r == r && Run(Then(before, a)).Some? && r in Run(Then(before, a)).value.requests
    ensures Justified(Then(before, a), r)
  {
  }

  lemma ActorIsThere(before: History<Action>, a: Action, r: nat)
    requires (a.Check? || a.Reread?) && a.r == r && Run(Then(before, a)).Some?
    ensures Run(before).Some? && r in Run(before).value.requests
  {
    hide IsAnswer;
  }

  // ----- one job for each request that created one -----

  /** No two requests ever claim to have created the same job, and every deploy job in the
      table was created by a request. */
  ghost predicate CreationsMatch(s: Store) {
    && (forall r, q, id :: At(s, r, Done(Created(id))) && At(s, q, Done(Created(id))) ==> r == q)
    && (forall r, id :: At(s, r, Done(Created(id))) ==> id in s.jobs)
    && (forall id :: id in s.jobs && s.jobs[id].isDeploy ==> exists r :: At(s, r, Done(Created(id))))
  }

  lemma {:induction false} JobsMatchRequests(acts: History<Action>)
    requires Run(acts).Some?
    ensures CreationsMatch(Run(acts).value)
  {
    match acts
    case Start =>
    case Then(before, a) =>
      JobsMatchRequests(before);
      StepKeepsCreations(Run(before).value, a);
  }

  lemma StepKeepsCreations(s: Store, a: Action)
    requires CreationsMatch(s) && Next(s, a).Some?
    ensures CreationsMatch(Next(s, a).value)
  {
    hide IndexHolds, IsAnswer;
    var s' := Next(s, a).value;
    forall r, id | At(s, r, Done(Created(id)))
      ensures At(s', r, Done(Created(id)))
    {
    }
    forall r, id | At(s', r, Done(Created(id))) && !At(s, r, Done(Created(id)))
      ensures a.Insert? && r == a.r && id == a.id && id !in s.jobs && id in s'.jobs
    {
    }
    assert forall id :: id in s.jobs ==> id in s'.jobs;
    forall id | id in s'.jobs && s'.jobs[id].isDeploy
      ensures exists r :: At(s', r, Done(Created(id)))
    {
      if id in s.jobs && s.jobs[id].isDeploy {
        var r :| At(s, r, Done(Created(id)));
        assert At(s', r, Done(Created(id)));
      } else {
        assert a.Insert? && At(s', a.r, Done(Created(id)));
      }
    }
  }

  /** A finished request stays as it ended, and one that is not can take at most three steps:
      every step of its own brings it closer to the end. */
  function StepsLeft(pc: Pc): nat {
    match pc
    case Checking => 3
    case Inserting => 2
    case Rereading => 1
    case Done(_) => 0
  }

  lemma RequestsProgress(s: Store, a: Action, r: nat)
    requires Next(s, a).Some? && r in s.requests
    ensures var s' := Next(s, a).value;
            && r in s'.requests
            && (Actor(a) == Some(r) ==> StepsLeft(s'.requests[r].pc) < StepsLeft(s.requests[r].pc))
            && (Actor(a) != Some(r) ==> s'.requests[r] == s.requests[r])
  {
  }
}
