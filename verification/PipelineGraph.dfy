/** The pipeline graph of one job: a chain of nodes built from its step rows and the
    declared template, or, for a job without rows, from the markers in its log. */
module PipelineGraph {
  import opened Wrappers
  import opened Text
  import opened Sets
  import opened NodeIds
  import opened Recorder
  import LogMarkers
  import Steps

  datatype NodeStatus = Pending | Running | Succeeded | Failed | Skipped | Cancelled

  datatype Node = Node(
    id: string,
    name: string,
    status: NodeStatus,
    startedAt: Option<int>,
    finishedAt: Option<int>,
    duration: Option<int>,
    detail: string,
    dependsOn: seq<string>)

  /** What the graph reads of a job: its row in `jobs`, its project's mode, its log and steps. */
  datatype Job = Job(
    kind: Steps.JobKind,
    kindName: string,
    status: JobStatus,
    mode: string,
    startedAt: Option<int>,
    finishedAt: Option<int>,
    error: string,
    log: string,
    rows: Rows)

  const DETAIL_CAP: nat := 200

  // ----- statuses -----

  predicate IsTerminal(status: JobStatus) {
    status != JobStatus.Queued && status != JobStatus.Running
  }

  function OfStep(status: StepStatus): NodeStatus {
    match status
    case StepRunning => NodeStatus.Running
    case StepSucceeded => NodeStatus.Succeeded
    case StepFailed => NodeStatus.Failed
  }

  /** What a status of the whole job is called in the graph. */
  function OfJob(status: JobStatus): NodeStatus {
    match status
    case Queued => NodeStatus.Pending
    case Running => NodeStatus.Running
    case Succeeded => NodeStatus.Succeeded
    case Failed => NodeStatus.Failed
    case Cancelled => NodeStatus.Cancelled
    case Interrupted => NodeStatus.Failed
  }

  /** The positional rule; a row whose own status is not "running" wins over it. */
  function StatusOf(index: nat, current: nat, job: JobStatus, row: Option<Row>): NodeStatus {
    if row.Some? && row.value.status != StepRunning then OfStep(row.value.status)
    else if index < current then NodeStatus.Succeeded
    else if index > current then (if IsTerminal(job) then NodeStatus.Skipped else NodeStatus.Pending)
    else if job == JobStatus.Queued || job == JobStatus.Running then NodeStatus.Running
    else if job == JobStatus.Succeeded then NodeStatus.Succeeded
    else if job == JobStatus.Cancelled then NodeStatus.Cancelled
    else NodeStatus.Failed
  }

  function RowAt(rows: Rows, i: nat): Option<Row> {
    if i in rows then Some(rows[i]) else None
  }

  function Duration(startedAt: int, finishedAt: Option<int>): Option<int> {
    if finishedAt.None? then None
    else Some(if finishedAt.value < startedAt then 0 else finishedAt.value - startedAt)
  }

  // ----- what the rows declare -----

  /** The step the job has reached: the largest index with a row. */
  function Current(rows: Rows): (k: nat)
    requires rows.Keys != {}
    ensures IsMax(rows.Keys, k)
  {
    MaxOf(rows.Keys)
  }

  function Totals(stages: map<nat, (nat, string)>): set<nat> {
    set i | i in stages :: stages[i].0
  }

  lemma TotalsNonEmpty(stages: map<nat, (nat, string)>)
    requires stages.Keys != {}
    ensures Totals(stages) != {}
  {
    var i :| i in stages.Keys;
    assert stages[i].0 in Totals(stages);
  }

  /** The largest total any step was announced with. */
  function DeclaredTotal(stages: map<nat, (nat, string)>): (t: nat)
    requires stages.Keys != {}
    ensures IsMax(Totals(stages), t)
  {
    TotalsNonEmpty(stages);
    MaxOf(Totals(stages))
  }

  function RowsTotal(rows: Rows): nat
    requires rows.Keys != {}
  {
    assert Shown(rows).Keys == rows.Keys;
    DeclaredTotal(Shown(rows))
  }

  // ----- labels -----

  function Placeholder(i: nat, declared: nat): string {
    "step " + Decimal(i) + " of " + Decimal(declared)
  }

  function Extra(declared: nat, template: seq<string>): nat {
    if declared > |template| then declared - |template| else 0
  }

  /** Where the template names step `i` of a job with `extra` steps of the repository's own. */
  function TemplateIndex(i: nat, extra: nat): int {
    if i <= Steps.FIXED_PREFIX then i - 1 else i - 1 - extra
  }

  predicate IsExtraStep(i: nat, extra: nat) {
    extra > 0 && Steps.FIXED_PREFIX < i <= Steps.FIXED_PREFIX + extra
  }

  /** The label of step `i`: its row's name if it has started, else what the template says. */
  function LabelOf(shown: map<nat, (nat, string)>, declared: nat, template: seq<string>, i: nat): string {
    var extra := Extra(declared, template);
    if i in shown then shown[i].1
    else if IsExtraStep(i, extra) then Placeholder(i, declared)
    else
      var t := TemplateIndex(i, extra);
      if 0 <= t < |template| then template[t] else Placeholder(i, declared)
  }

  function Length(declared: nat, template: seq<string>): nat {
    if declared > |template| then declared else |template|
  }

  // ----- the graph as a specification -----

  function IdsBefore(nodes: seq<Node>, i: nat): set<string>
    requires i <= |nodes|
  {
    set j | 0 <= j < i :: nodes[j].id
  }

  /** Node `i` has the first id of its label that no earlier node has, and depends on the
      node right before it. */
  ghost predicate IsLinked(nodes: seq<Node>, i: nat)
    requires i < |nodes|
  {
    && IsNextId(SlugBase(nodes[i].name), IdsBefore(nodes, i), nodes[i].id)
    && nodes[i].dependsOn == if i == 0 then [] else [nodes[i - 1].id]
  }

  ghost predicate IsChain(nodes: seq<Node>) {
    forall i :: 0 <= i < |nodes| ==> IsLinked(nodes, i)
  }

  /** A node that is not merely a placeholder for a step carries that step's times and error. */
  predicate ShowsRow(node: Node, row: Option<Row>) {
    match row
    case None => node.startedAt == None && node.finishedAt == None && node.duration == None && node.detail == ""
    case Some(r) =>
      && node.startedAt == Some(r.startedAt) && node.finishedAt == r.finishedAt
      && (node.duration == None <==> r.finishedAt.None?)
      && (node.duration.Some? ==> IsSpan(node.duration.value, r.startedAt, r.finishedAt.value))
      && node.detail == (if node.status == NodeStatus.Failed && r.error.Some? then
                           (if |r.error.value| > 200 then r.error.value[..200] else r.error.value)
                         else "")
  }

  ghost predicate IsRowNode(node: Node, i: nat, job: JobStatus, rows: Rows, template: seq<string>)
    requires rows.Keys != {}
  {
    && node.name == LabelOf(Shown(rows), RowsTotal(rows), template, i)
    && node.status == StatusOf(i, Current(rows), job, RowAt(rows, i))
    && ShowsRow(node, RowAt(rows, i))
  }

  ghost predicate IsRowGraph(nodes: seq<Node>, job: JobStatus, rows: Rows, template: seq<string>)
    requires rows.Keys != {}
  {
    && |nodes| == Length(RowsTotal(rows), template)
    && IsChain(nodes)
    && forall i :: 0 <= i < |nodes| ==> IsRowNode(nodes[i], i + 1, job, rows, template)
  }

  ghost predicate IsLogNode(node: Node, i: nat, job: JobStatus, stages: map<nat, (nat, string)>, template: seq<string>)
    requires i >= 1 && stages.Keys != {}
  {
    && (i in stages || i <= |template|)
    && node.name == (if i in stages then stages[i].1 else template[i - 1])
    && node.status == StatusOf(i, MaxOf(stages.Keys), job, None)
    && ShowsRow(node, None)
  }

  /** The log-built chain stops before the first step that neither the log nor the template names. */
  ghost predicate IsLogGraph(nodes: seq<Node>, job: JobStatus, stages: map<nat, (nat, string)>, template: seq<string>)
    requires stages.Keys != {}
  {
    var total := DeclaredTotal(stages);
    && |nodes| <= total
    && (|nodes| < total ==> |nodes| + 1 !in stages && |nodes| + 1 > |template|)
    && IsChain(nodes)
    && forall i :: 0 <= i < |nodes| ==> IsLogNode(nodes[i], i + 1, job, stages, template)
  }

  /** How long something took; a clock that went back makes it nothing, never less. */
  predicate IsSpan(duration: int, startedAt: int, finishedAt: int) {
    duration >= 0 && (startedAt <= finishedAt ==> startedAt + duration == finishedAt) && (finishedAt <= startedAt ==> duration == 0)
  }

  /** What a job of each status shows: an interrupted one did not succeed. */
  predicate ShowsJobStatus(shown: NodeStatus, status: JobStatus) {
    && (shown == NodeStatus.Pending <==> status == JobStatus.Queued)
    && (shown == NodeStatus.Running <==> status == JobStatus.Running)
    && (shown == NodeStatus.Succeeded <==> status == JobStatus.Succeeded)
    && (shown == NodeStatus.Cancelled <==> status == JobStatus.Cancelled)
    && (shown == NodeStatus.Failed <==> status == JobStatus.Failed || status == JobStatus.Interrupted)
  }

  ghost predicate IsJobNode(nodes: seq<Node>, job: Job) {
    && |nodes| == 1
    && nodes[0].id == "job" && nodes[0].name == job.kindName
    && ShowsJobStatus(nodes[0].status, job.status) && nodes[0].dependsOn == [] && nodes[0].detail == job.error
    && nodes[0].startedAt == job.startedAt && nodes[0].finishedAt == job.finishedAt
    && (nodes[0].duration == None <==> job.startedAt.None? || job.finishedAt.None?)
    && (nodes[0].duration.Some? ==> IsSpan(nodes[0].duration.value, job.startedAt.value, job.finishedAt.value))
  }

  // ----- building it -----

  lemma EmptyChain()
    ensures IsChain([]) && IdsBefore([], 0) == {}
  {
  }

  lemma ChainSnoc(nodes: seq<Node>, node: Node)
    requires IsChain(nodes)
    requires IsNextId(SlugBase(node.name), IdsBefore(nodes, |nodes|), node.id)
    requires node.dependsOn == if nodes == [] then [] else [nodes[|nodes| - 1].id]
    ensures IsChain(nodes + [node])
    ensures IdsBefore(nodes + [node], |nodes| + 1) == IdsBefore(nodes, |nodes|) + {node.id}
  {
    hide SlugBase, IsNextId;
    var all := nodes + [node];
    forall i | 0 <= i < |all|
      ensures IsLinked(all, i)
    {
      IdsBeforeSnoc(nodes, node, i);
      if i < |nodes| {
        assert IsLinked(nodes, i);
      }
    }
    IdsBeforeSnoc(nodes, node, |nodes|);
    IdBeforeLast(all);
  }

  lemma IdsBeforeSnoc(nodes: seq<Node>, node: Node, i: nat)
    requires i <= |nodes|
    ensures IdsBefore(nodes + [node], i) == IdsBefore(nodes, i)
  {
    var all := nodes + [node];
    forall x
      ensures x in IdsBefore(all, i) <==> x in IdsBefore(nodes, i)
    {
      if x in IdsBefore(all, i) {
        var j :| 0 <= j < i && all[j].id == x;
        assert nodes[j].id == x;
      }
      if x in IdsBefore(nodes, i) {
        var j :| 0 <= j < i && nodes[j].id == x;
        assert all[j].id == x;
      }
    }
  }

  lemma IdBeforeLast(nodes: seq<Node>)
    requires nodes != []
    ensures IdsBefore(nodes, |nodes|) == IdsBefore(nodes, |nodes| - 1) + {nodes[|nodes| - 1].id}
  {
  }

  /** Appends a node, giving it its id and its edge to the node before it. */
  method AppendNode(nodes: seq<Node>, taken: set<string>, node: Node)
    returns (nodes': seq<Node>, taken': set<string>)
    requires IsChain(nodes) && taken == IdsBefore(nodes, |nodes|)
    ensures IsChain(nodes')
    ensures |nodes'| == |nodes| + 1 && taken' == IdsBefore(nodes', |nodes'|)
    ensures forall i :: 0 <= i < |nodes| ==> nodes'[i] == nodes[i]
    ensures nodes'[|nodes|] == node.(id := nodes'[|nodes|].id, dependsOn := nodes'[|nodes|].dependsOn)
  {
    hide SlugBase, IsNextId;
    var id;
    id, taken' := Slugify(SlugBase(node.name), taken);
    var linked := node.(id := id, dependsOn := if nodes == [] then [] else [nodes[|nodes| - 1].id]);
    ChainSnoc(nodes, linked);
    nodes' := nodes + [linked];
  }

  /** One node of the row-built graph, before it has an id. */
  method RowNode(i: nat, job: JobStatus, rows: Rows, current: nat, declared: nat, template: seq<string>)
    returns (node: Node)
    requires i >= 1 && rows.Keys != {} && current == Current(rows) && declared == RowsTotal(rows)
    ensures IsRowNode(node, i, job, rows, template)
  {
    var extra := if declared > |template| then declared - |template| else 0;
    var status := StatusOf(i, current, job, RowAt(rows, i));
    if i in rows {
      var row := rows[i];
      var detail := "";
      if status == NodeStatus.Failed && row.error.Some? {
        detail := if |row.error.value| > DETAIL_CAP then row.error.value[..DETAIL_CAP] else row.error.value;
      }
      node := Node("", row.name, status, Some(row.startedAt), row.finishedAt,
                   Duration(row.startedAt, row.finishedAt), detail, []);
      return;
    }
    var name := Placeholder(i, declared);
    if !(extra > 0 && Steps.FIXED_PREFIX < i <= Steps.FIXED_PREFIX + extra) {
      var t := if i <= Steps.FIXED_PREFIX then i - 1 else i - 1 - extra;
      if 0 <= t < |template| {
        name := template[t];
      }
    }
    node := Node("", name, status, None, None, None, "", []);
  }

  method GraphFromRows(job: JobStatus, rows: Rows, template: seq<string>) returns (nodes: seq<Node>)
    requires rows.Keys != {}
    ensures IsRowGraph(nodes, job, rows, template)
  {
    hide IsLinked, IsChain, LabelOf;
    var current, declared := Current(rows), RowsTotal(rows);
    EmptyChain();
    var total := if declared > |template| then declared else |template|;
    var taken := {};
    nodes := [];
    for i := 1 to total + 1
      invariant |nodes| == i - 1
      invariant IsChain(nodes) && taken == IdsBefore(nodes, |nodes|)
      invariant forall j :: 0 <= j < |nodes| ==> IsRowNode(nodes[j], j + 1, job, rows, template)
    {
      var node := RowNode(i, job, rows, current, declared, template);
      nodes, taken := AppendNode(nodes, taken, node);
    }
  }

  method GraphFromLog(job: JobStatus, stages: map<nat, (nat, string)>, template: seq<string>)
    returns (nodes: seq<Node>)
    requires stages.Keys != {}
    ensures IsLogGraph(nodes, job, stages, template)
  {
    hide IsLinked, IsChain;
    EmptyChain();
    var total, current := DeclaredTotal(stages), MaxOf(stages.Keys);
    var taken := {};
    nodes := [];
    for i := 1 to total + 1
      invariant |nodes| == i - 1
      invariant IsChain(nodes) && taken == IdsBefore(nodes, |nodes|)
      invariant forall j :: 0 <= j < |nodes| ==> IsLogNode(nodes[j], j + 1, job, stages, template)
    {
      if i !in stages && i > |template| {
        return;
      }
      var name := if i in stages then stages[i].1 else template[i - 1];
      nodes, taken := AppendNode(nodes, taken, Node("", name, StatusOf(i, current, job, None), None, None, None, "", []));
    }
  }

  /** The graph of a job: from its rows; without any, from its log; without markers there, one node. */
  ghost predicate IsGraphOf(nodes: seq<Node>, job: Job) {
    && (job.rows.Keys != {} ==>
          IsRowGraph(nodes, job.status, job.rows, Steps.Template(job.kind, RowsTotal(job.rows), job.mode)))
    && (job.rows.Keys == {} && LogMarkers.Stages(job.log).Keys != {} ==>
          var stages := LogMarkers.Stages(job.log);
          IsLogGraph(nodes, job.status, stages, Steps.Template(job.kind, DeclaredTotal(stages), job.mode)))
    && (job.rows.Keys == {} && LogMarkers.Stages(job.log).Keys == {} ==> IsJobNode(nodes, job))
  }

  method JobGraph(job: Job) returns (nodes: seq<Node>)
    ensures IsGraphOf(nodes, job)
  {
    if job.rows.Keys != {} {
      nodes := GraphFromRows(job.status, job.rows, Steps.Template(job.kind, RowsTotal(job.rows), job.mode));
      return;
    }
    var stages := LogMarkers.ParseLogStages(job.log);
    if stages.Keys != {} {
      nodes := GraphFromLog(job.status, stages, Steps.Template(job.kind, DeclaredTotal(stages), job.mode));
      return;
    }
    var duration := if job.startedAt.Some? then Duration(job.startedAt.value, job.finishedAt) else None;
    nodes := [Node("job", job.kindName, OfJob(job.status), job.startedAt, job.finishedAt, duration, job.error, [])];
  }
}
