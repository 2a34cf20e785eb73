/** Joining the jobs of a GitHub run onto the jobs of the workflow file: which job a rendered
    name belongs to, the legs that collect under each workflow job, and the rolled-up status. */
module CiJoin {
  import opened Wrappers
  import opened Text
  import P = PipelineGraph

  /** A workflow job; an absent name is empty. */
  datatype WfJob = WfJob(id: string, name: string, condition: string, needs: seq<string>)

  datatype GhJob = GhJob(databaseId: nat, name: string, status: string, conclusion: string)

  datatype Leg = Leg(matrix: Option<string>, job: GhJob)

  datatype CiNode =
    | WfNode(wf: WfJob, status: P.NodeStatus, legs: seq<Leg>)
    | OrphanNode(job: GhJob, status: P.NodeStatus)

  // ----- statuses -----

  /** GitHub's status and conclusion in the graph's vocabulary. */
  function MapStatus(job: GhJob): P.NodeStatus {
    if job.status != "completed" then
      if job.status == "in_progress" then P.NodeStatus.Running
      else if job.status in ["queued", "waiting", "requested", "pending"] then P.NodeStatus.Pending
      else P.NodeStatus.Skipped
    else if job.conclusion == "success" then P.NodeStatus.Succeeded
    else if job.conclusion in ["failure", "timed_out", "startup_failure", "stale"] then P.NodeStatus.Failed
    else if job.conclusion == "cancelled" then P.NodeStatus.Cancelled
    else P.NodeStatus.Skipped
  }

  /** The status of a job, by the words GitHub reports: the conclusion counts once the job is
      completed, and a word that is not known is shown as skipped. */
  lemma StatusOfWords(job: GhJob)
    ensures MapStatus(job) == P.NodeStatus.Running <==> job.status == "in_progress"
    ensures MapStatus(job) == P.NodeStatus.Pending <==> job.status in {"queued", "waiting", "requested", "pending"}
    ensures MapStatus(job) == P.NodeStatus.Succeeded <==> job.status == "completed" && job.conclusion == "success"
    ensures MapStatus(job) == P.NodeStatus.Cancelled <==> job.status == "completed" && job.conclusion == "cancelled"
    ensures MapStatus(job) == P.NodeStatus.Failed <==>
            job.status == "completed" && job.conclusion in {"failure", "timed_out", "startup_failure", "stale"}
  {
  }

  const PRECEDENCE: seq<P.NodeStatus> := [
    P.NodeStatus.Failed, P.NodeStatus.Running, P.NodeStatus.Pending,
    P.NodeStatus.Cancelled, P.NodeStatus.Succeeded, P.NodeStatus.Skipped]

  /** Where a status stands in the order of precedence. */
  function RankOf(s: P.NodeStatus): nat {
    match s
    case Failed => 0
    case Running => 1
    case Pending => 2
    case Cancelled => 3
    case Succeeded => 4
    case Skipped => 5
  }

  /** `r` is the rollup of a collection of statuses: its member of highest precedence, and
      "skipped" for an empty one. */
  predicate IsRollup(statuses: seq<P.NodeStatus>, r: P.NodeStatus) {
    if statuses == [] then r == P.NodeStatus.Skipped
    else r in statuses && forall s :: s in statuses ==> RankOf(r) <= RankOf(s)
  }

  method RollupStatuses(statuses: seq<P.NodeStatus>) returns (r: P.NodeStatus)
    ensures IsRollup(statuses, r)
  {
    if statuses == [] {
      return P.NodeStatus.Skipped;
    }
    for i := 0 to |PRECEDENCE|
      invariant forall j :: 0 <= j < i ==> PRECEDENCE[j] !in statuses
    {
      RankIsPosition(PRECEDENCE[i]);
      if PRECEDENCE[i] in statuses {
        forall s | s in statuses
          ensures RankOf(PRECEDENCE[i]) <= RankOf(s)
        {
          RankIsPosition(s);
        }
        return PRECEDENCE[i];
      }
    }
    RankIsPosition(statuses[0]);
    return P.NodeStatus.Skipped;
  }

  lemma RankIsPosition(s: P.NodeStatus)
    ensures RankOf(s) < |PRECEDENCE| && PRECEDENCE[RankOf(s)] == s
    ensures forall i :: 0 <= i < |PRECEDENCE| ==> RankOf(PRECEDENCE[i]) == i
  {
  }

  /** The order and the number of the legs do not matter: two collections with the same members
      roll up to the same status. */
  lemma RollupIgnoresOrder(a: seq<P.NodeStatus>, b: seq<P.NodeStatus>, ra: P.NodeStatus, rb: P.NodeStatus)
    requires forall s :: s in a <==> s in b
    requires IsRollup(a, ra) && IsRollup(b, rb)
    ensures ra == rb
  {
  }

  /** Rolling up in two parts is the same as rolling up at once, empty parts included. */
  lemma RollupOfParts(a: seq<P.NodeStatus>, b: seq<P.NodeStatus>, ra: P.NodeStatus, rb: P.NodeStatus, r: P.NodeStatus)
    requires IsRollup(a, ra) && IsRollup(b, rb)
    ensures IsRollup(a + b, r) <==> IsRollup([ra, rb], r)
  {
  }

  // ----- which workflow job a rendered name belongs to -----

  function Display(wf: WfJob): string {
    if wf.name != "" then wf.name else wf.id
  }

  /** The text before the first `${{`. */
  function CutTemplate(s: string): (r: string)
    ensures r <= s
  {
    if |s| < 3 then s
    else if s[..3] == "${{" then ""
    else [s[0]] + CutTemplate(s[1..])
  }

  function Literal(wf: WfJob): (r: string)
    ensures r <= Display(wf)
  {
    StripRight(CutTemplate(Display(wf)), IsSpace)
  }

  predicate IsParen(c: char) {
    c == '(' || c == ')'
  }

  /** What is left of the rendered name behind the literal, without blanks and parentheses. */
  function MatrixLabel(rest: string): Option<string> {
    var text := Strip(Strip(Strip(rest, IsSpace), IsParen), IsSpace);
    if text == "" then None else Some(text)
  }

  /** The matrix label a rendered name gives its leg: none when the name is the job's own. */
  function MatrixOf(wf: WfJob, name: string): Option<string> {
    if Display(wf) == name || !(Literal(wf) <= name) then None
    else MatrixLabel(name[|Literal(wf)|..])
  }

  /** A `${{` begins at position `k`. */
  predicate OpensAt(name: string, k: nat)
    requires k <= |name|
  {
    k + 3 <= |name| && name[k] == '$' && name[k + 1] == '{' && name[k + 2] == '{'
  }

  /** Where the first `${{` of a name begins; its length if there is none. */
  predicate IsTemplateStart(name: string, n: nat) {
    && n <= |name|
    && (n < |name| ==> OpensAt(name, n))
    && (forall k :: 0 <= k < n ==> !OpensAt(name, k))
  }

  lemma {:induction false} CutIsTemplateStart(s: string)
    ensures IsTemplateStart(s, |CutTemplate(s)|)
  {
    if |s| >= 3 && s[..3] != "${{" {
      var rest := s[1..];
      CutIsTemplateStart(rest);
      assert !OpensAt(s, 0);
      OpensLater(s, |CutTemplate(rest)|);
    } else if |s| >= 3 {
      assert OpensAt(s, 0);
    }
  }

  lemma OpensLater(s: string, n: nat)
    requires s != "" && !OpensAt(s, 0) && IsTemplateStart(s[1..], n)
    ensures IsTemplateStart(s, n + 1)
  {
    forall k | 0 < k <= |s|
      ensures OpensAt(s, k) == OpensAt(s[1..], k - 1)
    {
    }
  }

  /** A job's literal, read off its name, or off its id when it has none: it ends before the first
      `${{`, and reaches it but for trailing blanks. */
  lemma LiteralIs(wf: WfJob, n: nat)
    requires IsTemplateStart(if wf.name != "" then wf.name else wf.id, n)
    ensures var name, literal := if wf.name != "" then wf.name else wf.id, Literal(wf);
            && |literal| <= n && literal == name[..|literal|]
            && (forall i :: |literal| <= i < n ==> IsSpace(name[i]))
            && (literal != "" ==> !IsSpace(literal[|literal| - 1]))
  {
    hide StripRight, CutTemplate;
    var name := Display(wf);
    CutIsTemplateStart(name);
    var cut := CutTemplate(name);
    OneTemplateStart(name, n, |cut|);
    forall i | |Literal(wf)| <= i < n
      ensures IsSpace(name[i])
    {
      assert name[i] == cut[i];
    }
  }

  lemma OneTemplateStart(name: string, a: nat, b: nat)
    requires IsTemplateStart(name, a) && IsTemplateStart(name, b)
    ensures a == b
  {
  }

  predicate AreBlanks(s: string) {
    forall i :: 0 <= i < |s| ==> IsSpace(s[i])
  }

  /** A remainder in parentheses, blanks around it or inside, gives the label between them. */
  lemma LabelInParentheses(before: string, left: string, core: string, right: string, behind: string)
    requires AreBlanks(before) && AreBlanks(left) && AreBlanks(right) && AreBlanks(behind)
    requires Trimmed(core) && !IsParen(core[0]) && !IsParen(core[|core| - 1])
    ensures MatrixLabel(before + ("(" + (left + core + right) + ")") + behind) == Some(core)
  {
    hide Strip;
    var inner := left + core + right;
    StripOfCore(before + ("(" + inner + ")") + behind, IsSpace, "(" + inner + ")", |before|);
    StripOfCore(inner, IsSpace, core, |left|);
    ParensAround(left, core, right);
  }

  lemma ParensAround(left: string, core: string, right: string)
    requires AreBlanks(left) && AreBlanks(right)
    requires Trimmed(core) && !IsParen(core[0]) && !IsParen(core[|core| - 1])
    ensures Strip("(" + (left + core + right) + ")", IsParen) == left + core + right
  {
    hide Strip;
    var inner := left + core + right;
    assert inner[0] == (if left == "" then core[0] else left[0]);
    assert inner[|inner| - 1] == (if right == "" then core[|core| - 1] else right[|right| - 1]);
    StripOfCore("(" + inner + ")", IsParen, inner, 1);
  }

  /** One without parentheses at its ends gives the label between the blanks; one of blanks alone
      gives none. */
  lemma LabelBetweenBlanks(before: string, core: string, behind: string)
    requires AreBlanks(before) && AreBlanks(behind)
    requires Trimmed(core) && !IsParen(core[0]) && !IsParen(core[|core| - 1])
    ensures MatrixLabel(before + core + behind) == Some(core) && MatrixLabel(before) == None
  {
    hide Strip;
    StripOfCore(before + core + behind, IsSpace, core, |before|);
    StripOfCore(core, IsParen, core, 0);
    StripOfCore(core, IsSpace, core, 0);
    StripOfCore(before, IsSpace, "", 0);
    StripOfCore("", IsParen, "", 0);
    StripOfCore("", IsSpace, "", 0);
  }

  predicate IsExact(wf: seq<WfJob>, name: string, i: nat)
    requires i < |wf|
  {
    Display(wf[i]) == name
  }

  /** Job `i`'s literal is a non-empty prefix of the name. */
  predicate IsPrefixMatch(wf: seq<WfJob>, name: string, i: nat)
    requires i < |wf|
  {
    Literal(wf[i]) != "" && Literal(wf[i]) <= name
  }

  /** The job a rendered name belongs to: the first with exactly that name; failing that, the
      first of those whose literal prefix is longest; failing that, none. */
  ghost predicate IsMatch(wf: seq<WfJob>, name: string, m: Option<nat>) {
    if exists i :: 0 <= i < |wf| && IsExact(wf, name, i) then
      && m.Some? && m.value < |wf| && IsExact(wf, name, m.value)
      && forall j :: 0 <= j < m.value ==> !IsExact(wf, name, j)
    else if exists i :: 0 <= i < |wf| && IsPrefixMatch(wf, name, i) then
      && m.Some? && m.value < |wf| && IsPrefixMatch(wf, name, m.value)
      && (forall j :: 0 <= j < |wf| && IsPrefixMatch(wf, name, j) ==> |Literal(wf[j])| <= |Literal(wf[m.value])|)
      && forall j :: 0 <= j < m.value && IsPrefixMatch(wf, name, j) ==> |Literal(wf[j])| < |Literal(wf[m.value])|
    else
      m.None?
  }

  lemma MatchIsUnique(wf: seq<WfJob>, name: string, a: Option<nat>, b: Option<nat>)
    requires IsMatch(wf, name, a) && IsMatch(wf, name, b)
    ensures a == b
  {
    hide Literal, Display;
  }

  method MatchGhJob(wf: seq<WfJob>, name: string) returns (m: Option<nat>, matrix: Option<string>)
    ensures IsMatch(wf, name, m)
    ensures m.Some? ==> m.value < |wf| && matrix == MatrixOf(wf[m.value], name)
  {
    hide Literal, Display, MatrixLabel;
    for i := 0 to |wf|
      invariant forall j :: 0 <= j < i ==> !IsExact(wf, name, j)
    {
      if Display(wf[i]) == name {
        assert IsExact(wf, name, i);
        return Some(i), None;
      }
    }
    var best: Option<nat> := None;
    var bestLiteral := "";
    for i := 0 to |wf|
      invariant best.None? ==> bestLiteral == "" && forall j :: 0 <= j < i ==> !IsPrefixMatch(wf, name, j)
      invariant best.Some? ==>
                  && best.value < i && bestLiteral == Literal(wf[best.value]) && IsPrefixMatch(wf, name, best.value)
                  && (forall j :: 0 <= j < i && IsPrefixMatch(wf, name, j) ==> |Literal(wf[j])| <= |bestLiteral|)
                  && (forall j :: 0 <= j < best.value && IsPrefixMatch(wf, name, j) ==> |Literal(wf[j])| < |bestLiteral|)
    {
      var literal := Literal(wf[i]);
      if |literal| > |bestLiteral| && literal <= name {
        assert IsPrefixMatch(wf, name, i);
        best, bestLiteral := Some(i), literal;
      }
    }
    if best.None? {
      return None, None;
    }
    return best, MatrixLabel(name[|bestLiteral|..]);
  }

  // ----- the join -----

  /** GitHub job `k` is a leg of workflow job `j`; jobs without a name are left out. */
  ghost predicate Joins(wf: seq<WfJob>, gh: seq<GhJob>, k: nat, j: nat)
    requires k < |gh|
  {
    gh[k].name != "" && IsMatch(wf, gh[k].name, Some(j))
  }

  ghost predicate IsOrphan(wf: seq<WfJob>, gh: seq<GhJob>, k: nat)
    requires k < |gh|
  {
    gh[k].name != "" && IsMatch(wf, gh[k].name, None)
  }

  /** `legs` are, in order, the GitHub jobs among the first `n` that belong to workflow job `j`;
      `at` says which ones. */
  ghost predicate AreLegs(wf: seq<WfJob>, gh: seq<GhJob>, j: nat, n: nat, legs: seq<Leg>, at: seq<nat>)
    requires j < |wf| && n <= |gh|
  {
    && |at| == |legs|
    && (forall i :: 0 <= i < |at| ==> at[i] < n && Joins(wf, gh, at[i], j) && legs[i] == Leg(MatrixOf(wf[j], gh[at[i]].name), gh[at[i]]))
    && (forall i, l :: 0 <= i < l < |at| ==> at[i] < at[l])
    && (forall k :: 0 <= k < n && Joins(wf, gh, k, j) ==> k in at)
  }

  ghost predicate AreOrphans(wf: seq<WfJob>, gh: seq<GhJob>, n: nat, orphans: seq<GhJob>, at: seq<nat>)
    requires n <= |gh|
  {
    && |at| == |orphans|
    && (forall i :: 0 <= i < |at| ==> at[i] < n && IsOrphan(wf, gh, at[i]) && orphans[i] == gh[at[i]])
    && (forall i, l :: 0 <= i < l < |at| ==> at[i] < at[l])
    && (forall k :: 0 <= k < n && IsOrphan(wf, gh, k) ==> k in at)
  }

  ghost predicate IsDistinct(wf: seq<WfJob>) {
    forall i, j :: 0 <= i < j < |wf| ==> wf[i].id != wf[j].id
  }

  /** The legs collected so far, by workflow job id, and the orphans. */
  ghost predicate Collected(
      wf: seq<WfJob>, gh: seq<GhJob>, n: nat, legs: map<string, seq<Leg>>, orphans: seq<GhJob>,
      at: seq<seq<nat>>, orphanAt: seq<nat>)
    requires n <= |gh|
  {
    && |at| == |wf|
    && (forall j :: 0 <= j < |wf| ==> AreLegs(wf, gh, j, n, LegsOf(legs, wf[j].id), at[j]))
    && AreOrphans(wf, gh, n, orphans, orphanAt)
  }

  function LegsOf(legs: map<string, seq<Leg>>, id: string): seq<Leg> {
    if id in legs then legs[id] else []
  }

  lemma UnnamedChangesNothing(
      wf: seq<WfJob>, gh: seq<GhJob>, n: nat, legs: map<string, seq<Leg>>, orphans: seq<GhJob>,
      at: seq<seq<nat>>, orphanAt: seq<nat>)
    requires n < |gh| && gh[n].name == "" && Collected(wf, gh, n, legs, orphans, at, orphanAt)
    ensures Collected(wf, gh, n + 1, legs, orphans, at, orphanAt)
  {
    hide IsMatch, AreLegs, AreOrphans;
    forall j | 0 <= j < |wf|
      ensures AreLegs(wf, gh, j, n + 1, LegsOf(legs, wf[j].id), at[j])
    {
      assert AreLegs(wf, gh, j, n, LegsOf(legs, wf[j].id), at[j]);
      LegsSkip(wf, gh, j, n, LegsOf(legs, wf[j].id), at[j]);
    }
    UnnamedIsNoOrphan(wf, gh, n, orphans, orphanAt);
  }

  lemma UnnamedIsNoOrphan(wf: seq<WfJob>, gh: seq<GhJob>, n: nat, orphans: seq<GhJob>, orphanAt: seq<nat>)
    requires n < |gh| && gh[n].name == "" && AreOrphans(wf, gh, n, orphans, orphanAt)
    ensures AreOrphans(wf, gh, n + 1, orphans, orphanAt)
  {
    hide IsMatch;
  }

  lemma LegsSkip(wf: seq<WfJob>, gh: seq<GhJob>, j: nat, n: nat, legs: seq<Leg>, at: seq<nat>)
    requires j < |wf| && n < |gh| && AreLegs(wf, gh, j, n, legs, at) && !Joins(wf, gh, n, j)
    ensures AreLegs(wf, gh, j, n + 1, legs, at)
  {
    hide IsMatch;
  }

  lemma LegsTake(wf: seq<WfJob>, gh: seq<GhJob>, j: nat, n: nat, legs: seq<Leg>, at: seq<nat>, leg: Leg)
    requires j < |wf| && n < |gh| && AreLegs(wf, gh, j, n, legs, at) && Joins(wf, gh, n, j)
    requires leg == Leg(MatrixOf(wf[j], gh[n].name), gh[n])
    ensures AreLegs(wf, gh, j, n + 1, legs + [leg], at + [n])
  {
    hide IsMatch, MatrixOf;
  }

  lemma TakeLeg(
      wf: seq<WfJob>, gh: seq<GhJob>, n: nat, legs: map<string, seq<Leg>>, orphans: seq<GhJob>,
      at: seq<seq<nat>>, orphanAt: seq<nat>, m: nat, leg: Leg)
    requires n < |gh| && Collected(wf, gh, n, legs, orphans, at, orphanAt) && IsDistinct(wf)
    requires gh[n].name != "" && m < |wf| && IsMatch(wf, gh[n].name, Some(m)) && leg == Leg(MatrixOf(wf[m], gh[n].name), gh[n])
    ensures Collected(wf, gh, n + 1, legs[wf[m].id := LegsOf(legs, wf[m].id) + [leg]], orphans,
                      at[m := at[m] + [n]], orphanAt)
  {
    hide IsMatch, AreLegs, MatrixOf, AreOrphans;
    var legs' := legs[wf[m].id := LegsOf(legs, wf[m].id) + [leg]];
    forall j | 0 <= j < |wf|
      ensures AreLegs(wf, gh, j, n + 1, LegsOf(legs', wf[j].id), at[m := at[m] + [n]][j])
    {
      assert AreLegs(wf, gh, j, n, LegsOf(legs, wf[j].id), at[j]);
      if j == m {
        LegsTake(wf, gh, j, n, LegsOf(legs, wf[j].id), at[j], leg);
      } else {
        if Joins(wf, gh, n, j) {
          MatchIsUnique(wf, gh[n].name, Some(m), Some(j));
        }
        LegsSkip(wf, gh, j, n, LegsOf(legs, wf[j].id), at[j]);
      }
    }
    OrphansSkip(wf, gh, n, orphans, orphanAt, m);
  }

  lemma OrphansSkip(wf: seq<WfJob>, gh: seq<GhJob>, n: nat, orphans: seq<GhJob>, orphanAt: seq<nat>, m: nat)
    requires n < |gh| && AreOrphans(wf, gh, n, orphans, orphanAt) && IsMatch(wf, gh[n].name, Some(m))
    ensures AreOrphans(wf, gh, n + 1, orphans, orphanAt)
  {
  }

  lemma TakeOrphan(
      wf: seq<WfJob>, gh: seq<GhJob>, n: nat, legs: map<string, seq<Leg>>, orphans: seq<GhJob>,
      at: seq<seq<nat>>, orphanAt: seq<nat>)
    requires n < |gh| && Collected(wf, gh, n, legs, orphans, at, orphanAt)
    requires gh[n].name != "" && IsMatch(wf, gh[n].name, None)
    ensures Collected(wf, gh, n + 1, legs, orphans + [gh[n]], at, orphanAt + [n])
  {
    hide IsMatch, AreLegs;
    forall j | 0 <= j < |wf|
      ensures AreLegs(wf, gh, j, n + 1, LegsOf(legs, wf[j].id), at[j])
    {
      assert AreLegs(wf, gh, j, n, LegsOf(legs, wf[j].id), at[j]);
      if Joins(wf, gh, n, j) {
        MatchIsUnique(wf, gh[n].name, None, Some(j));
      }
      LegsSkip(wf, gh, j, n, LegsOf(legs, wf[j].id), at[j]);
    }
  }

  /** The node of workflow job `j`: its legs' rollup, or, without any, pending while the run
      goes on and skipped once it is over. */
  predicate IsNodeOf(node: CiNode, wf: WfJob, legs: seq<Leg>, running: bool) {
    && node.WfNode? && node.wf == wf && node.legs == legs
    && (if legs == [] then node.status == if running then P.NodeStatus.Pending else P.NodeStatus.Skipped
        else IsRollup(LegStatuses(legs), node.status))
  }

  function LegStatuses(legs: seq<Leg>): seq<P.NodeStatus> {
    seq(|legs|, i requires 0 <= i < |legs| => MapStatus(legs[i].job))
  }

  ghost predicate IsJoin(
      nodes: seq<CiNode>, wf: seq<WfJob>, gh: seq<GhJob>, running: bool, at: seq<seq<nat>>, orphanAt: seq<nat>)
  {
    && |at| == |wf| && |nodes| == |wf| + |orphanAt|
    && (forall j :: 0 <= j < |wf| ==> nodes[j].WfNode? && IsNodeOf(nodes[j], wf[j], nodes[j].legs, running)
                                      && AreLegs(wf, gh, j, |gh|, nodes[j].legs, at[j]))
    && (forall i :: 0 <= i < |orphanAt| ==> orphanAt[i] < |gh| && IsOrphan(wf, gh, orphanAt[i])
                                            && nodes[|wf| + i] == OrphanNode(gh[orphanAt[i]], MapStatus(gh[orphanAt[i]])))
    && (forall i, l :: 0 <= i < l < |orphanAt| ==> orphanAt[i] < orphanAt[l])
    && (forall k :: 0 <= k < |gh| && IsOrphan(wf, gh, k) ==> k in orphanAt)
  }

  /** The workflow jobs in file order, each with its legs in run order, then the orphans. */
  method JoinGhJobs(wf: seq<WfJob>, gh: seq<GhJob>, runStatus: string)
    returns (nodes: seq<CiNode>)
    requires IsDistinct(wf)
    ensures exists at, orphanAt :: IsJoin(nodes, wf, gh, runStatus in ["pending", "running"], at, orphanAt)
  {
    hide *;
    var running := runStatus in ["pending", "running"];
    var legs: map<string, seq<Leg>>;
    var orphans: seq<GhJob>;
    ghost var at: seq<seq<nat>>;
    ghost var orphanAt: seq<nat>;
    legs, orphans, at, orphanAt := CollectLegs(wf, gh);
    nodes := BuildNodes(wf, legs, orphans, running);
    CollectedIsJoin(wf, gh, legs, orphans, at, orphanAt, nodes, running);
  }

  method CollectLegs(wf: seq<WfJob>, gh: seq<GhJob>)
    returns (legs: map<string, seq<Leg>>, orphans: seq<GhJob>, ghost at: seq<seq<nat>>, ghost orphanAt: seq<nat>)
    requires IsDistinct(wf)
    ensures Collected(wf, gh, |gh|, legs, orphans, at, orphanAt)
  {
    hide *;
    legs, orphans, at, orphanAt := map[], [], seq(|wf|, _ => []), [];
    NothingCollected(wf, gh);
    for k := 0 to |gh|
      invariant Collected(wf, gh, k, legs, orphans, at, orphanAt)
    {
      if gh[k].name == "" {
        UnnamedChangesNothing(wf, gh, k, legs, orphans, at, orphanAt);
      } else {
        var m, matrix := MatchGhJob(wf, gh[k].name);
        MatchInRange(wf, gh[k].name, m);
        if m.None? {
          TakeOrphan(wf, gh, k, legs, orphans, at, orphanAt);
          orphans, orphanAt := orphans + [gh[k]], orphanAt + [k];
        } else {
          var leg := Leg(matrix, gh[k]);
          CollectedLength(wf, gh, k, legs, orphans, at, orphanAt);
          TakeLeg(wf, gh, k, legs, orphans, at, orphanAt, m.value, leg);
          at := at[m.value := at[m.value] + [k]];
          legs := legs[wf[m.value].id := LegsOf(legs, wf[m.value].id) + [leg]];
        }
      }
    }
  }

  lemma NothingCollected(wf: seq<WfJob>, gh: seq<GhJob>)
    ensures Collected(wf, gh, 0, map[], [], seq(|wf|, _ => []), [])
  {
    hide IsMatch;
  }

  ghost predicate AreNodes(
      nodes: seq<CiNode>, wf: seq<WfJob>, legs: map<string, seq<Leg>>, orphans: seq<GhJob>, running: bool)
  {
    && |nodes| == |wf| + |orphans|
    && (forall j :: 0 <= j < |wf| ==> IsNodeOf(nodes[j], wf[j], LegsOf(legs, wf[j].id), running))
    && (forall i :: 0 <= i < |orphans| ==> nodes[|wf| + i] == OrphanNode(orphans[i], MapStatus(orphans[i])))
  }

  method BuildNodes(wf: seq<WfJob>, legs: map<string, seq<Leg>>, orphans: seq<GhJob>, running: bool)
    returns (nodes: seq<CiNode>)
    ensures AreNodes(nodes, wf, legs, orphans, running)
  {
    hide LegsOf, IsNodeOf, MapStatus;
    nodes := [];
    for j := 0 to |wf|
      invariant |nodes| == j
      invariant forall i :: 0 <= i < j ==> IsNodeOf(nodes[i], wf[i], LegsOf(legs, wf[i].id), running)
    {
      var node := NodeFor(wf[j], LegsOf(legs, wf[j].id), running);
      nodes := nodes + [node];
    }
    for i := 0 to |orphans|
      invariant AreNodes(nodes, wf, legs, orphans[..i], running)
    {
      nodes := nodes + [OrphanNode(orphans[i], MapStatus(orphans[i]))];
    }
    assert orphans[..|orphans|] == orphans;
  }

  lemma CollectedIsJoin(
      wf: seq<WfJob>, gh: seq<GhJob>, legs: map<string, seq<Leg>>, orphans: seq<GhJob>,
      at: seq<seq<nat>>, orphanAt: seq<nat>, nodes: seq<CiNode>, running: bool)
    requires Collected(wf, gh, |gh|, legs, orphans, at, orphanAt)
    requires AreNodes(nodes, wf, legs, orphans, running)
    ensures IsJoin(nodes, wf, gh, running, at, orphanAt)
  {
  }

  method NodeFor(wf: WfJob, legs: seq<Leg>, running: bool) returns (node: CiNode)
    ensures IsNodeOf(node, wf, legs, running)
  {
    if legs == [] {
      return WfNode(wf, if running then P.NodeStatus.Pending else P.NodeStatus.Skipped, []);
    }
    var status := RollupStatuses(LegStatuses(legs));
    return WfNode(wf, status, legs);
  }

  lemma MatchInRange(wf: seq<WfJob>, name: string, m: Option<nat>)
    requires IsMatch(wf, name, m)
    ensures m.Some? ==> m.value < |wf|
  {
    hide Literal, Display;
  }

  lemma CollectedLength(
      wf: seq<WfJob>, gh: seq<GhJob>, n: nat, legs: map<string, seq<Leg>>, orphans: seq<GhJob>,
      at: seq<seq<nat>>, orphanAt: seq<nat>)
    requires n <= |gh| && Collected(wf, gh, n, legs, orphans, at, orphanAt)
    ensures |at| == |wf|
  {
  }

  lemma JoinHolds(
      nodes: seq<CiNode>, wf: seq<WfJob>, gh: seq<GhJob>, running: bool, at: seq<seq<nat>>, orphanAt: seq<nat>, k: nat)
    requires IsJoin(nodes, wf, gh, running, at, orphanAt) && k < |gh|
    ensures forall j :: 0 <= j < |wf| ==> (k in at[j] <==> Joins(wf, gh, k, j))
    ensures k in orphanAt <==> IsOrphan(wf, gh, k)
  {
  }

  /** Conservation: every named job of the run is in the graph exactly once, as a leg of the one
      workflow job it matches or, matching none, as an orphan; a job without a name is not in it
      at all. */
  lemma EveryJobAppearsOnce(
      nodes: seq<CiNode>, wf: seq<WfJob>, gh: seq<GhJob>, running: bool, at: seq<seq<nat>>, orphanAt: seq<nat>, k: nat)
    returns (m: Option<nat>)
    requires IsJoin(nodes, wf, gh, running, at, orphanAt) && k < |gh|
    ensures IsMatch(wf, gh[k].name, m)
    ensures forall j :: 0 <= j < |wf| ==> (k in at[j] <==> gh[k].name != "" && m == Some(j))
    ensures k in orphanAt <==> gh[k].name != "" && m == None
  {
    hide IsMatch, IsJoin;
    JoinHolds(nodes, wf, gh, running, at, orphanAt, k);
    MatchExists(wf, gh[k].name);
    m :| IsMatch(wf, gh[k].name, m);
    forall x: Option<nat> | IsMatch(wf, gh[k].name, x)
      ensures x == m
    {
      MatchIsUnique(wf, gh[k].name, x, m);
    }
    assert |at| == |wf| by { JoinShape(nodes, wf, gh, running, at, orphanAt); }
  }

  lemma JoinShape(
      nodes: seq<CiNode>, wf: seq<WfJob>, gh: seq<GhJob>, running: bool, at: seq<seq<nat>>, orphanAt: seq<nat>)
    requires IsJoin(nodes, wf, gh, running, at, orphanAt)
    ensures |at| == |wf|
  {
  }

  lemma MatchExists(wf: seq<WfJob>, name: string)
    ensures exists m: Option<nat> :: IsMatch(wf, name, m)
  {
    hide Literal, Display;
    if exists i :: 0 <= i < |wf| && IsExact(wf, name, i) {
      var i := FirstExact(wf, name);
      assert IsMatch(wf, name, Some(i));
    } else if exists i :: 0 <= i < |wf| && IsPrefixMatch(wf, name, i) {
      var i := FirstLongest(wf, name, |wf|);
      assert IsMatch(wf, name, Some(i));
    } else {
      assert IsMatch(wf, name, None);
    }
  }

  lemma FirstExact(wf: seq<WfJob>, name: string) returns (i: nat)
    requires exists i :: 0 <= i < |wf| && IsExact(wf, name, i)
    ensures i < |wf| && IsExact(wf, name, i) && forall j :: 0 <= j < i ==> !IsExact(wf, name, j)
  {
    i := 0;
    while !IsExact(wf, name, i)
      invariant i < |wf| && forall j :: 0 <= j < i ==> !IsExact(wf, name, j)
      decreases |wf| - i
    {
      i := i + 1;
    }
  }

  lemma {:induction false} FirstLongest(wf: seq<WfJob>, name: string, n: nat) returns (best: nat)
    requires n <= |wf| && exists i :: 0 <= i < n && IsPrefixMatch(wf, name, i)
    ensures best < n && IsPrefixMatch(wf, name, best)
    ensures forall j :: 0 <= j < n && IsPrefixMatch(wf, name, j) ==> |Literal(wf[j])| <= |Literal(wf[best])|
    ensures forall j :: 0 <= j < best && IsPrefixMatch(wf, name, j) ==> |Literal(wf[j])| < |Literal(wf[best])|
  {
    hide Literal, Display;
    if exists i :: 0 <= i < n - 1 && IsPrefixMatch(wf, name, i) {
      best := FirstLongest(wf, name, n - 1);
      if IsPrefixMatch(wf, name, n - 1) && |Literal(wf[n - 1])| > |Literal(wf[best])| {
        best := n - 1;
      }
    } else {
      best := n - 1;
    }
  }
}
