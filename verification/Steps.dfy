/** The declared step templates a pipeline graph falls back on for steps that have no row yet. */
module Steps {
  const DEPLOY: seq<string> := [
    "cloning repository",
    "secret scan (gitleaks) + gate",
    "dependency scan (pip-audit) + gate",
    "building image",
    "pushing image to registry",
    "trivy scan + gate",
    "rendering + applying manifests",
    "waiting for rollout",
    "capturing live URL"]

  const PROVISION_VM: seq<string> :=
    ["terraform init", "terraform apply", "capturing node IPs", "ansible-playbook configure"]

  const PROVISION_NAMESPACE: seq<string> :=
    ["rendering namespace, quota, limits and network policy", "applying to the shared cluster"]

  const PROVISION_POOLED: seq<string> := ["claiming a pre-warmed cluster"]

  lemma DeployNamesDiffer()
    ensures |DEPLOY| == 9
    ensures forall a, b :: 0 <= a < b < |DEPLOY| ==> DEPLOY[a] != DEPLOY[b]
  {
    assert |DEPLOY[0]| == 18 && |DEPLOY[1]| == 29 && |DEPLOY[2]| == 34 && |DEPLOY[3]| == 14 && |DEPLOY[4]| == 25;
    assert |DEPLOY[5]| == 17 && |DEPLOY[6]| == 30 && |DEPLOY[7]| == 19 && |DEPLOY[8]| == 18;
    assert DEPLOY[0][1] == 'l' && DEPLOY[8][1] == 'a';
  }

  /** The built-in steps that run before any stage of the repository's own. */
  const FIXED_PREFIX: nat := 3

  datatype JobKind = Deploy | Provision | Other

  function ProvisionByTotal(total: nat): seq<string> {
    if total == 4 then PROVISION_VM
    else if total == 2 then PROVISION_NAMESPACE
    else if total == 1 then PROVISION_POOLED
    else []
  }

  function ProvisionByMode(mode: string): seq<string> {
    if mode == "vm" then PROVISION_VM
    else if mode == "namespace" then PROVISION_NAMESPACE
    else if mode == "pooled" then PROVISION_POOLED
    else []
  }

  /** The template of a job whose recorded total is `total` (0 when it has none), and whose
      project, when there is one, is of mode `mode`. */
  function Template(kind: JobKind, total: nat, mode: string): seq<string> {
    match kind
    case Deploy => DEPLOY
    case Provision => if ProvisionByTotal(total) != [] then ProvisionByTotal(total) else ProvisionByMode(mode)
    case Other => []
  }
}
