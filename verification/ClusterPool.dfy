/** Claiming warm clusters from the pool, with any number of claimers at once, each of which may
    crash before it commits, and the fingerprint that decides which cluster fits a request. */
module ClusterPool {
  import opened Wrappers

  datatype ClusterStatus = Warming | Available | Claimed

  datatype Cluster = Cluster(fingerprint: string, status: ClusterStatus, owner: Option<nat>, createdAt: int)

  /** A claimer holds the row lock of the cluster it selected until it commits or crashes. */
  datatype Claim = Asking | Holding(cluster: nat) | Got(claimed: nat) | Empty | Crashed

  datatype Claimer = Claimer(project: nat, wanted: string, claim: Claim)

  datatype Pool = Pool(clusters: map<nat, Cluster>, claimers: map<nat, Claimer>)

  datatype Action =
    | Warm(id: nat, fingerprint: string, at: int)
    | Ready(id: nat)
    | Ask(c: nat, project: nat, wanted: string)
    | Select(c: nat, pick: Option<nat>)
    | Commit(c: nat)
    | Crash(c: nat)

  predicate IsLocked(p: Pool, id: nat) {
    exists c :: c in p.claimers && p.claimers[c].claim == Holding(id)
  }

  predicate Fits(p: Pool, id: nat, wanted: string) {
    id in p.clusters && p.clusters[id].status == Available && p.clusters[id].fingerprint == wanted && !IsLocked(p, id)
  }

  /** What the locking select may return: the oldest fitting cluster nobody has locked, or none. */
  predicate IsPick(p: Pool, wanted: string, pick: Option<nat>) {
    match pick
    case None => forall id :: id in p.clusters ==> !Fits(p, id, wanted)
    case Some(id) =>
      && Fits(p, id, wanted)
      && forall j :: j in p.clusters && Fits(p, j, wanted) ==> p.clusters[id].createdAt <= p.clusters[j].createdAt
  }

  predicate Does(p: Pool, c: nat, claim: Claim) {
    c in p.claimers && p.claimers[c].claim == claim
  }

  function Becomes(p: Pool, c: nat, claim: Claim): Pool
    requires c in p.claimers
  {
    p.(claimers := p.claimers[c := p.claimers[c].(claim := claim)])
  }

  function Next(p: Pool, a: Action): Option<Pool> {
    match a
    case Warm(id, fingerprint, at) =>
      if id in p.clusters then None
      else Some(p.(clusters := p.clusters[id := Cluster(fingerprint, Warming, None, at)]))
    case Ready(id) =>
      if id in p.clusters && p.clusters[id].status == Warming then
        Some(p.(clusters := p.clusters[id := p.clusters[id].(status := Available)]))
      else None
    case Ask(c, project, wanted) =>
      if c in p.claimers then None
      else Some(p.(claimers := p.claimers[c := Claimer(project, wanted, Asking)]))
    case Select(c, pick) =>
      if Does(p, c, Asking) && IsPick(p, p.claimers[c].wanted, pick) then
        Some(Becomes(p, c, if pick.Some? then Holding(pick.value) else Empty))
      else None
    case Commit(c) =>
      if c in p.claimers && p.claimers[c].claim.Holding? && p.claimers[c].claim.cluster in p.clusters then
        var id := p.claimers[c].claim.cluster;
        var row := p.clusters[id].(status := Claimed, owner := Some(p.claimers[c].project));
        Some(Becomes(p.(clusters := p.clusters[id := row]), c, Got(id)))
      else None
    case Crash(c) =>
      if c in p.claimers && (p.claimers[c].claim.Asking? || p.claimers[c].claim.Holding?) then
        Some(Becomes(p, c, Crashed))
      else None
  }

  function Run(acts: History<Action>): Option<Pool> {
    match acts
    case Start => Some(Pool(map[], map[]))
    case Then(before, a) =>
      var p := Run(before);
      if p.None? then None else Next(p.value, a)
  }

  /** The cluster a claimer has a lock or a claim on. */
  function Target(claim: Claim): Option<nat> {
    match claim
    case Holding(id) => Some(id)
    case Got(id) => Some(id)
    case _ => None
  }

  /** A lock is on a cluster that is still available and of the shape its holder asked for; a
      claim that went through is on record, for that claimer's project. */
  predicate IsSoundClaim(p: Pool, c: nat)
    requires c in p.claimers
  {
    var claimer := p.claimers[c];
    match claimer.claim
    case Holding(id) =>
      id in p.clusters && p.clusters[id].status == Available && p.clusters[id].fingerprint == claimer.wanted
    case Got(id) =>
      && id in p.clusters && p.clusters[id].status == Claimed
      && p.clusters[id].owner == Some(claimer.project) && p.clusters[id].fingerprint == claimer.wanted
    case _ => true
  }

  predicate HasClaimer(p: Pool, id: nat) {
    exists c :: c in p.claimers && p.claimers[c].claim == Got(id)
  }

  ghost predicate Sound(p: Pool) {
    && (forall c :: c in p.claimers ==> IsSoundClaim(p, c))
    && (forall c, d :: c in p.claimers && d in p.claimers && c != d && Target(p.claimers[c].claim).Some? ==>
          Target(p.claimers[c].claim) != Target(p.claimers[d].claim))
    && (forall id :: id in p.clusters && p.clusters[id].status == Claimed ==> HasClaimer(p, id))
  }

  /** In every run, whatever crashes: no warm cluster is ever held or claimed by two claimers,
      every claim that went through is recorded for its own project on a cluster of the shape it
      asked for, and nothing is recorded as claimed without such a claim. */
  lemma {:induction false} PoolStaysSound(acts: History<Action>)
    requires Run(acts).Some?
    ensures Sound(Run(acts).value)
  {
    match acts
    case Start =>
    case Then(before, a) =>
      PoolStaysSound(before);
      StepKeepsSound(Run(before).value, a);
  }

  lemma StepKeepsSound(p: Pool, a: Action)
    requires Sound(p) && Next(p, a).Some?
    ensures Sound(Next(p, a).value)
  {
    match a
    case Select(c, pick) => SelectKeepsSound(p, c, pick);
    case Commit(c) => CommitKeepsSound(p, c);
    case Warm(_, _, _) => StockKeepsSound(p, a);
    case Ready(_) => StockKeepsSound(p, a);
    case Ask(_, _, _) => IdleKeepsSound(p, a);
    case Crash(_) => IdleKeepsSound(p, a);
  }

  /** A new or newly ready cluster was not locked or claimed by anyone. */
  lemma StockKeepsSound(p: Pool, a: Action)
    requires Sound(p) && Next(p, a).Some? && (a.Warm? || a.Ready?)
    ensures Sound(Next(p, a).value)
  {
    var p' := Next(p, a).value;
    forall c | c in p'.claimers
      ensures IsSoundClaim(p', c)
    {
      assert IsSoundClaim(p, c);
    }
    forall id | id in p'.clusters && p'.clusters[id].status == Claimed
      ensures HasClaimer(p', id)
    {
      assert HasClaimer(p, id);
    }
  }

  /** A claimer that starts or gives up is on no cluster. */
  lemma IdleKeepsSound(p: Pool, a: Action)
    requires Sound(p) && Next(p, a).Some? && (a.Ask? || a.Crash?)
    ensures Sound(Next(p, a).value)
  {
    var p' := Next(p, a).value;
    forall c | c in p'.claimers
      ensures IsSoundClaim(p', c)
    {
      assert c != a.c ==> IsSoundClaim(p, c);
    }
    forall id | id in p'.clusters && p'.clusters[id].status == Claimed
      ensures HasClaimer(p', id)
    {
      assert HasClaimer(p, id);
      var c :| c in p.claimers && p.claimers[c].claim == Got(id);
      assert p'.claimers[c].claim == Got(id);
    }
  }

  /** Nobody else can be on the cluster the locking select returns: it is neither locked nor claimed. */
  lemma SelectKeepsSound(p: Pool, c: nat, pick: Option<nat>)
    requires Sound(p) && Next(p, Select(c, pick)).Some?
    ensures Sound(Next(p, Select(c, pick)).value)
  {
    var p' := Next(p, Select(c, pick)).value;
    if pick.Some? {
      forall d | d in p.claimers
        ensures Target(p.claimers[d].claim) != pick
      {
        assert IsSoundClaim(p, d);
        assert p.claimers[d].claim != Holding(pick.value);
      }
    }
    forall id | id in p'.clusters && p'.clusters[id].status == Claimed
      ensures HasClaimer(p', id)
    {
      assert HasClaimer(p, id);
      var d :| d in p.claimers && p.claimers[d].claim == Got(id);
      assert p'.claimers[d].claim == Got(id);
    }
    forall d | d in p'.claimers
      ensures IsSoundClaim(p', d)
    {
      assert d != c ==> IsSoundClaim(p, d);
    }
  }

  lemma CommitKeepsSound(p: Pool, c: nat)
    requires Sound(p) && Next(p, Commit(c)).Some?
    ensures Sound(Next(p, Commit(c)).value)
  {
    var p' := Next(p, Commit(c)).value;
    var id := p.claimers[c].claim.cluster;
    assert IsSoundClaim(p, c);
    forall d | d in p'.claimers
      ensures IsSoundClaim(p', d)
    {
      if d != c {
        assert IsSoundClaim(p, d);
        assert Target(p.claimers[c].claim) != Target(p.claimers[d].claim);
      }
    }
    forall k | k in p'.clusters && p'.clusters[k].status == Claimed
      ensures HasClaimer(p', k)
    {
      if k == id {
        assert p'.claimers[c].claim == Got(id);
      } else {
        assert HasClaimer(p, k);
        var d :| d in p.claimers && p.claimers[d].claim == Got(k);
        assert p'.claimers[d].claim == Got(k);
      }
    }
  }

  /** What the locking select does, cluster by cluster: it goes to one that is available, of the
      fingerprint asked for, held by nobody, and not younger than any other such; and to none
      exactly when there is none. */
  lemma SelectIff(p: Pool, c: nat, pick: Option<nat>)
    requires Does(p, c, Asking)
    ensures var wanted := p.claimers[c].wanted;
            Next(p, Select(c, pick)).Some? <==>
              && (pick.Some? ==> IsFree(p, pick.value, wanted))
              && forall j :: j in p.clusters && IsFree(p, j, wanted) ==>
                   pick.Some? && p.clusters[pick.value].createdAt <= p.clusters[j].createdAt
    ensures Next(p, Select(c, pick)).Some? ==>
              Next(p, Select(c, pick)).value.clusters == p.clusters
              && Next(p, Select(c, pick)).value.claimers
                 == p.claimers[c := p.claimers[c].(claim := if pick.Some? then Holding(pick.value) else Empty)]
  {
    assert forall j :: Fits(p, j, p.claimers[c].wanted) == IsFree(p, j, p.claimers[c].wanted);
  }

  predicate IsFree(p: Pool, id: nat, wanted: string) {
    && id in p.clusters && p.clusters[id].status == Available && p.clusters[id].fingerprint == wanted
    && forall c :: c in p.claimers ==> p.claimers[c].claim != Holding(id)
  }

  /** A cluster can be made ready exactly while it is warming, and is then free for its fingerprint. */
  lemma ReadyIsFree(p: Pool, id: nat)
    requires Sound(p)
    ensures Next(p, Ready(id)).Some? <==> id in p.clusters && p.clusters[id].status == Warming
    ensures Next(p, Ready(id)).Some? ==> IsFree(Next(p, Ready(id)).value, id, p.clusters[id].fingerprint)
  {
    forall c | c in p.claimers && id in p.clusters && p.clusters[id].status == Warming
      ensures p.claimers[c].claim != Holding(id)
    {
      assert IsSoundClaim(p, c);
    }
  }

  /** In every run, a cluster that anyone holds or has claimed was made ready before: the step
      before left it warming, and warming is how it started. */
  lemma {:induction false} ClaimedWasReady(acts: History<Action>, c: nat, id: nat)
    requires Run(acts).Some? && (Does(Run(acts).value, c, Holding(id)) || Does(Run(acts).value, c, Got(id)))
    ensures WasReady(acts, id)
  {
    PoolStaysSound(acts);
    assert IsSoundClaim(Run(acts).value, c);
    UsableWasReady(acts, id);
  }

  /** Somewhere in the run the cluster was warmed, and later made ready. */
  predicate WasReady(acts: History<Action>, id: nat) {
    acts.Then? && (WasReady(acts.before, id) || (acts.last == Ready(id) && WasWarmed(acts.before, id)))
  }

  predicate WasWarmed(acts: History<Action>, id: nat) {
    acts.Then? && (WasWarmed(acts.before, id) || (acts.last.Warm? && acts.last.id == id))
  }

  lemma {:induction false} UsableWasReady(acts: History<Action>, id: nat)
    requires Run(acts).Some? && id in Run(acts).value.clusters
    ensures WasWarmed(acts, id)
    ensures Run(acts).value.clusters[id].status != Warming ==> WasReady(acts, id)
  {
    match acts
    case Start =>
    case Then(before, a) =>
      if id in Run(before).value.clusters {
        UsableWasReady(before, id);
      }
      PoolStaysSound(before);
      assert a.Commit? ==> IsSoundClaim(Run(before).value, a.c);
  }

  /** A claimed cluster never becomes available again, and never changes hands. */
  lemma ClaimIsFinal(p: Pool, a: Action, id: nat)
    requires Sound(p) && Next(p, a).Some?
    requires id in p.clusters && p.clusters[id].status == Claimed
    ensures id in Next(p, a).value.clusters && Next(p, a).value.clusters[id] == p.clusters[id]
  {
  }

  /** A crash before the commit costs nothing: the cluster can be selected again. */
  lemma CrashReleases(p: Pool, c: nat, id: nat)
    requires Sound(p) && Does(p, c, Holding(id))
    ensures Next(p, Crash(c)).Some?
    ensures Fits(Next(p, Crash(c)).value, id, p.claimers[c].wanted)
  {
  }

  // ----- the fingerprint -----

  datatype Role = DockerHost | K8sMaster | K8sWorker

  datatype NodeShape = NodeShape(vcpu: int, memoryMb: int, diskGb: int, role: Role)

  /** What a spec asks for, apart from the node names and the network, which do not count. */
  datatype Spec = Spec(mode: string, config: seq<string>, nodes: seq<NodeShape>)

  datatype Shape = Shape(mode: string, config: seq<string>, nodes: seq<NodeShape>)

  /** Roles as they compare by name. */
  function RoleRank(role: Role): nat {
    match role
    case DockerHost => 0
    case K8sMaster => 1
    case K8sWorker => 2
  }

  /** The sort key: role, processors, memory, disk. */
  predicate Before(a: NodeShape, b: NodeShape) {
    || RoleRank(a.role) < RoleRank(b.role)
    || (a.role == b.role && a.vcpu < b.vcpu)
    || (a.role == b.role && a.vcpu == b.vcpu && a.memoryMb < b.memoryMb)
    || (a.role == b.role && a.vcpu == b.vcpu && a.memoryMb == b.memoryMb && a.diskGb <= b.diskGb)
  }

  lemma BeforeIsTotalOrder(a: NodeShape, b: NodeShape, c: NodeShape)
    ensures Before(a, b) || Before(b, a)
    ensures Before(a, b) && Before(b, a) ==> a == b
    ensures Before(a, b) && Before(b, c) ==> Before(a, c)
  {
  }

  predicate IsSorted(s: seq<NodeShape>) {
    forall i, j :: 0 <= i < j < |s| ==> Before(s[i], s[j])
  }

  function InsertNode(s: seq<NodeShape>, x: NodeShape): seq<NodeShape> {
    if s == [] || Before(x, s[0]) then [x] + s else [s[0]] + InsertNode(s[1..], x)
  }

  function SortNodes(s: seq<NodeShape>): seq<NodeShape> {
    if s == [] then [] else InsertNode(SortNodes(s[1..]), s[0])
  }

  lemma {:induction false} InsertKeeps(s: seq<NodeShape>, x: NodeShape)
    requires IsSorted(s)
    ensures IsSorted(InsertNode(s, x)) && multiset(InsertNode(s, x)) == multiset(s) + multiset{x}
  {
    if s == [] {
    } else if Before(x, s[0]) {
      forall i | 0 <= i < |s|
        ensures Before(x, s[i])
      {
        BeforeIsTotalOrder(x, s[0], s[i]);
      }
    } else {
      InsertKeeps(s[1..], x);
      BeforeIsTotalOrder(x, s[0], s[0]);
      var rest := InsertNode(s[1..], x);
      assert s == [s[0]] + s[1..];
      forall i | 0 <= i < |rest|
        ensures Before(s[0], rest[i])
      {
        assert rest[i] in multiset(rest);
        if rest[i] != x {
          assert rest[i] in s[1..];
        }
      }
    }
  }

  lemma {:induction false} SortIsSortedPermutation(s: seq<NodeShape>)
    ensures IsSorted(SortNodes(s)) && multiset(SortNodes(s)) == multiset(s)
  {
    if s != [] {
      SortIsSortedPermutation(s[1..]);
      InsertKeeps(SortNodes(s[1..]), s[0]);
      assert s == [s[0]] + s[1..];
    }
  }

  lemma SmallestComesFirst(a: seq<NodeShape>, x: NodeShape)
    requires IsSorted(a) && x in multiset(a)
    ensures a != [] && Before(a[0], x)
  {
  }

  lemma TailElements(a: seq<NodeShape>)
    requires a != []
    ensures multiset(a[1..]) == multiset(a) - multiset{a[0]}
    ensures IsSorted(a) ==> IsSorted(a[1..])
  {
    assert a == [a[0]] + a[1..];
  }

  lemma SmallestAgree(a: seq<NodeShape>, b: seq<NodeShape>)
    requires a != [] && b != [] && IsSorted(a) && IsSorted(b) && multiset(a) == multiset(b)
    ensures a[0] == b[0]
  {
    hide IsSorted, Before;
    SmallestComesFirst(b, a[0]);
    SmallestComesFirst(a, b[0]);
    BeforeIsTotalOrder(a[0], b[0], b[0]);
  }

  /** There is only one way to sort: sorted sequences with the same elements are equal. */
  lemma {:induction false} SortedIsCanonical(a: seq<NodeShape>, b: seq<NodeShape>)
    requires IsSorted(a) && IsSorted(b) && multiset(a) == multiset(b)
    ensures a == b
  {
    hide IsSorted;
    assert |multiset(a)| == |a| && |multiset(b)| == |b|;
    if a != [] {
      SmallestAgree(a, b);
      TailElements(a);
      TailElements(b);
      SortedIsCanonical(a[1..], b[1..]);
      assert a == [a[0]] + a[1..] && b == [b[0]] + b[1..];
    }
  }

  function ShapeOf(spec: Spec): Shape {
    Shape(spec.mode, spec.config, SortNodes(spec.nodes))
  }

  /** Two specs share pooled clusters exactly when they agree on mode, configuration and the
      multiset of node sizes and roles, in whatever order the nodes are listed. */
  lemma SameShapeIff(a: Spec, b: Spec)
    ensures ShapeOf(a) == ShapeOf(b) <==>
            a.mode == b.mode && a.config == b.config && multiset(a.nodes) == multiset(b.nodes)
  {
    SortIsSortedPermutation(a.nodes);
    SortIsSortedPermutation(b.nodes);
    if multiset(a.nodes) == multiset(b.nodes) {
      SortedIsCanonical(SortNodes(a.nodes), SortNodes(b.nodes));
    }
  }

  /** With a hash that does not collide, a claimed cluster has the shape of the claimer's own spec. */
  lemma ClaimedClusterHasRequestedShape(
      p: Pool, c: nat, id: nat, asked: Spec, built: Spec, fingerprint: Shape -> string)
    requires forall x, y :: fingerprint(x) == fingerprint(y) ==> x == y
    requires Sound(p) && Does(p, c, Got(id))
    requires p.claimers[c].wanted == fingerprint(ShapeOf(asked))
    requires p.clusters[id].fingerprint == fingerprint(ShapeOf(built))
    ensures asked.mode == built.mode && asked.config == built.config && multiset(asked.nodes) == multiset(built.nodes)
  {
    assert IsSoundClaim(p, c);
    SameShapeIff(asked, built);
  }
}
