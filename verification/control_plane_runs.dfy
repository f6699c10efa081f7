/** Requests and runs of the control plane: each request commits or aborts cleanly, and every run keeps the invariant. */
module ControlPlaneRuns {
  import opened Wrappers
  import opened Keys
  import opened ContainerSpec
  import opened Components
  import opened ControlPlane
  import opened ControlPlaneProofs
  import Deployment

  // ---------- the nodes a request builds ----------

  lemma BeaconNodeFacts(cfg: Config, req: Request, k: nat, ip: string)
    requires Supported(req.client)
    ensures var n := BeaconNode(cfg, req, k, ip); IsBeacon(n, k) && ClientOf(n) == req.client
  {
    var n := BeaconNode(cfg, req, k, ip);
    assert CLIENT_LABEL != TYPE_LABEL && CLIENT_LABEL != "viewpoint" && CLIENT_LABEL != "env";
    assert TYPE_LABEL != "viewpoint" && TYPE_LABEL != "env";
    assert Label(n.spec.labels, CLIENT_LABEL) == ClientName(req.client);
    assert Label(n.spec.labels, TYPE_LABEL) == BEACON;
  }

  lemma ValidatorNodeFacts(cfg: Config, req: Request, k: nat, accounts: seq<Account>, target: NodeData, ip: string)
    requires Supported(req.client) && Distinct(accounts) && AllMarshal(accounts)
    ensures var n := ValidatorNode(cfg, req, k, accounts, target, ip);
            && IsValidator(n, k) && ClientOf(n) == req.client
            && TalksTo(req.client, n.spec, target)
            && LoadedKeys(ClientOf(n), n.spec) == BlsKeys(accounts)
  {
    var vc := ValidatorConfig(accounts, cfg.spec, target);
    var n := ValidatorNode(cfg, req, k, accounts, target, ip);
    assert CLIENT_LABEL != TYPE_LABEL && CLIENT_LABEL != "viewpoint" && CLIENT_LABEL != "env";
    assert TYPE_LABEL != "viewpoint" && TYPE_LABEL != "env";
    assert Label(n.spec.labels, CLIENT_LABEL) == ClientName(req.client);
    assert Label(n.spec.labels, TYPE_LABEL) == VALIDATOR;
    ContainerRunsItsKeys(req.client, vc);
    ContainerTalksToBeacon(req.client, vc);
    Deployment.ValidatorFilesClean(req.client, vc);
    assert n.spec.files == ValidatorFiles(req.client, vc) && n.spec.cmd == ValidatorSpec(req.client, vc).cmd;
    assert n.spec.mounts == ValidatorSpec(req.client, vc).mounts;
  }

  // ---------- beacons ----------

  /** after is before plus beacons of the client, numbered on. */
  ghost predicate AddedBeacons(before: seq<NodeData>, after: seq<NodeData>, c: NodeClient) {
    && before <= after
    && forall i :: |before| <= i < |after| ==>
         IsBeacon(after[i], CountType(before, BEACON) + i - |before|) && ClientOf(after[i]) == c
  }

  predicate Launches(env: Env, k: nat, n: nat) {
    forall j :: k <= j < n ==> LaunchOk(env, j)
  }

  lemma {:induction false} BeaconsKeepInv(s: State, cfg: Config, req: Request, env: Env, k: nat, n: nat)
    requires Inv(s, cfg) && k <= n
    ensures Inv(DeployBeacons(s, cfg, req, env, k, n).0, cfg)
    decreases n - k
  {
    if k < n && Supported(req.client) && LaunchOk(env, k) {
      var count := CountType(s.nodes, BEACON);
      var node := BeaconNode(cfg, req, count, env.ip(k));
      BeaconNodeFacts(cfg, req, count, env.ip(k));
      AppendBeacon(s, cfg, node);
      BeaconsKeepInv(s.(nodes := s.nodes + [node]), cfg, req, env, k + 1, n);
    }
  }

  lemma {:induction false} BeaconsAdded(s: State, cfg: Config, req: Request, env: Env, k: nat, n: nat)
    requires k <= n
    ensures var s' := DeployBeacons(s, cfg, req, env, k, n).0;
            && s'.tranches == s.tranches && s'.issued == s.issued && |s'.nodes| <= |s.nodes| + n - k
            && AddedBeacons(s.nodes, s'.nodes, req.client)
    decreases n - k
  {
    if k < n && Supported(req.client) && LaunchOk(env, k) {
      var count := CountType(s.nodes, BEACON);
      var node := BeaconNode(cfg, req, count, env.ip(k));
      var s1 := s.(nodes := s.nodes + [node]);
      BeaconNodeFacts(cfg, req, count, env.ip(k));
      BeaconsAdded(s1, cfg, req, env, k + 1, n);
      AddedOneMore(s.nodes, node, DeployBeacons(s1, cfg, req, env, k + 1, n).0.nodes, req.client);
    }
  }

  lemma AddedOneMore(before: seq<NodeData>, node: NodeData, after: seq<NodeData>, c: NodeClient)
    requires IsBeacon(node, CountType(before, BEACON)) && ClientOf(node) == c
    requires AddedBeacons(before + [node], after, c)
    ensures AddedBeacons(before, after, c)
  {
    var one := before + [node];
    assert one[..|before|] == before;
    assert CountType(one, BEACON) == CountType(before, BEACON) + 1;
    forall i | |before| <= i < |after|
      ensures IsBeacon(after[i], CountType(before, BEACON) + i - |before|) && ClientOf(after[i]) == c
    {
      if i == |before| {
        assert after[i] == one[i] == node;
      } else {
        assert CountType(before, BEACON) + i - |before| == CountType(one, BEACON) + i - |one|;
      }
    }
    assert before <= one <= after;
  }

  lemma {:induction false} BeaconsSucceed(s: State, cfg: Config, req: Request, env: Env, k: nat, n: nat)
    requires k <= n
    ensures var (s', ok) := DeployBeacons(s, cfg, req, env, k, n);
            && (ok <==> k == n || (Supported(req.client) && Launches(env, k, n)))
            && (ok ==> |s'.nodes| == |s.nodes| + n - k)
            && (!Supported(req.client) ==> s' == s)
    decreases n - k
  {
    if k < n && Supported(req.client) && LaunchOk(env, k) {
      var node := BeaconNode(cfg, req, CountType(s.nodes, BEACON), env.ip(k));
      BeaconsSucceed(s.(nodes := s.nodes + [node]), cfg, req, env, k + 1, n);
      assert Launches(env, k, n) <==> LaunchOk(env, k) && Launches(env, k + 1, n);
    }
  }

  // ---------- picking a beacon ----------

  lemma {:induction false} PickedBeacon(nodes: seq<NodeData>, c: NodeClient)
    ensures PickBeacon(nodes, c).Some? ==>
              PickBeacon(nodes, c).value in nodes && HasType(PickBeacon(nodes, c).value, BEACON) && HasClient(PickBeacon(nodes, c).value, c)
    ensures PickBeacon(nodes, c).None? ==>
              forall i :: 0 <= i < |nodes| && HasType(nodes[i], BEACON) ==> !HasClient(nodes[i], c)
  {
    if nodes != [] && !(HasType(nodes[0], BEACON) && HasClient(nodes[0], c)) {
      PickedBeacon(nodes[1..], c);
    }
  }

  /** A registered beacon node labelled with the requested client shows that the client is supported. */
  lemma RegisteredBeaconSupported(nodes: seq<NodeData>, b: NodeData, c: NodeClient)
    requires NodesInv(nodes) && b in nodes && HasType(b, BEACON) && HasClient(b, c)
    ensures Supported(c) && ClientOf(b) == c
  {
    var i :| 0 <= i < |nodes| && nodes[i] == b;
    NodeKind(nodes, i);
    assert HasClient(b, ClientOf(b));
    ClientNameIdentifies(ClientOf(b), c);
  }

  /** The beacon a validator is given. */
  predicate IsTarget(s: State, req: Request, target: NodeData) {
    target in s.nodes && HasType(target, BEACON) && ClientOf(target) == req.client && Supported(req.client)
  }

  // ---------- validators ----------

  /** The tranches after a request created or selected tranche t for a node of this name (empty: not consumed yet). */
  function TranchesWith(s: State, cfg: Config, role: Role, env: Env, name: string): map<nat, TrancheData>
    requires role.ValidatorRole? && (role.numValidators == 0 ==> role.numTranch in s.tranches)
  {
    if role.numValidators == 0 then Take(s.tranches, role.numTranch, name)
    else s.tranches[|s.tranches| := TrancheData(env.accounts, TranchePath(cfg.dir, |s.tranches|), name)]
  }

  /** Whether a validator request gets a tranche. */
  predicate TrancheAvailable(s: State, role: Role, env: Env)
    requires role.ValidatorRole?
  {
    if role.numValidators == 0 then role.numTranch in s.tranches && !IsConsumed(s.tranches[role.numTranch])
    else env.depositsOk && AllMarshal(env.accounts) && env.writeOk
  }

  function TrancheSize(s: State, role: Role, env: Env): nat
    requires role.ValidatorRole?
    requires role.numValidators == 0 ==> role.numTranch in s.tranches
  {
    if role.numValidators == 0 then |s.tranches[role.numTranch].accounts| else |env.accounts|
  }

  function TrancheIndex(s: State, role: Role): nat
    requires role.ValidatorRole?
  {
    if role.numValidators == 0 then role.numTranch else |s.tranches|
  }

  ghost predicate Obtained(s: State, s1: State, cfg: Config, role: Role, env: Env)
    requires role.ValidatorRole?
  {
    var t := TrancheIndex(s, role);
    && TrancheAvailable(s, role, env)
    && t in s1.tranches && !IsConsumed(s1.tranches[t])
    && TrancheSize(s, role, env) == |s1.tranches[t].accounts|
    && s1.tranches == TranchesWith(s, cfg, role, env, "")
    && forall name :: Take(s1.tranches, t, name) == TranchesWith(s, cfg, role, env, name)
  }

  lemma TrancheSelected(s: State, cfg: Config, role: Role, env: Env)
    requires role.ValidatorRole? && role.numValidators == 0 && TrancheAvailable(s, role, env)
    ensures Obtained(s, s, cfg, role, env)
  {
    var t := role.numTranch;
    assert s.tranches[t].(validator := "") == s.tranches[t];
    assert Take(s.tranches, t, "") == s.tranches;
  }

  lemma TrancheCreated(s: State, cfg: Config, role: Role, env: Env)
    requires role.ValidatorRole? && role.numValidators != 0 && TrancheAvailable(s, role, env)
    ensures Obtained(s, CreateTranche(s, cfg, env, true).0, cfg, role, env)
  {
    var s1 := CreateTranche(s, cfg, env, true).0;
    var t := |s.tranches|;
    forall name: string
      ensures Take(s1.tranches, t, name) == TranchesWith(s, cfg, role, env, name)
    {
      assert s1.tranches[t].(validator := name) == TrancheData(env.accounts, TranchePath(cfg.dir, t), name);
    }
  }

  lemma TrancheObtained(s: State, cfg: Config, role: Role, env: Env)
    requires Inv(s, cfg) && Fresh(s, env.accounts) && role.ValidatorRole?
    ensures var (s1, index) := ObtainTranche(s, cfg, role, env);
            && Inv(s1, cfg) && s1.nodes == s.nodes
            && (index.Some? <==> TrancheAvailable(s, role, env))
            && (index.None? ==> s1.tranches == s.tranches)
            && (index.Some? ==> index.value == TrancheIndex(s, role) && Obtained(s, s1, cfg, role, env))
  {
    if role.numValidators != 0 {
      CreateKeepsInv(s, cfg, env, true);
      if TrancheAvailable(s, role, env) {
        TrancheCreated(s, cfg, role, env);
      }
    } else if TrancheAvailable(s, role, env) {
      TrancheSelected(s, cfg, role, env);
    }
  }

  /** What a validator deployment did when it succeeded. */
  ghost predicate ValidatorAdded(s: State, s': State, cfg: Config, req: Request, env: Env, target: NodeData)
    requires req.role.ValidatorRole?
  {
    && TrancheAvailable(s, req.role, env)
    && |s'.nodes| == |s.nodes| + 1 && s.nodes <= s'.nodes
    && var v := s'.nodes[|s.nodes|];
       && IsValidator(v, CountType(s.nodes, VALIDATOR)) && ClientOf(v) == req.client && Serves(target, v)
       && s'.tranches == TranchesWith(s, cfg, req.role, env, v.spec.name)
       && TrancheIndex(s, req.role) in s'.tranches && Owns(v, s'.tranches[TrancheIndex(s, req.role)])
  }

  /** What it left behind when it failed: at most a new tranche that nobody owns. */
  ghost predicate ValidatorFailed(s: State, s': State, cfg: Config, req: Request, env: Env)
    requires req.role.ValidatorRole?
  {
    && s'.nodes == s.nodes
    && (s'.tranches == s.tranches
        || (req.role.numValidators != 0 && TrancheAvailable(s, req.role, env)
            && s'.tranches == TranchesWith(s, cfg, req.role, env, "")))
  }

  /** The last step: registering the validator and consuming the tranche it got. */
  lemma ValidatorRegistered(s: State, s1: State, cfg: Config, req: Request, env: Env, target: NodeData, ip: string)
    requires Inv(s1, cfg) && s1.nodes == s.nodes && req.role.ValidatorRole? && IsTarget(s, req, target)
    requires Obtained(s, s1, cfg, req.role, env)
    ensures var t := TrancheIndex(s, req.role);
            var v := ValidatorNode(cfg, req, CountType(s1.nodes, VALIDATOR), s1.tranches[t].accounts, target, ip);
            var s' := s1.(nodes := s1.nodes + [v], tranches := Take(s1.tranches, t, v.spec.name));
            Inv(s', cfg) && ValidatorAdded(s, s', cfg, req, env, target)
  {
    var t := TrancheIndex(s, req.role);
    var count := CountType(s1.nodes, VALIDATOR);
    assert TrancheOk(s1.tranches[t], t, s1.issued, cfg);
    ValidatorNodeFacts(cfg, req, count, s1.tranches[t].accounts, target, ip);
    ValidatorAddedLast(s, s1, cfg, req, env, target,
                       ValidatorNode(cfg, req, count, s1.tranches[t].accounts, target, ip), t);
  }

  lemma ValidatorAddedLast(s: State, s1: State, cfg: Config, req: Request, env: Env, target: NodeData, v: NodeData, t: nat)
    requires Inv(s1, cfg) && s1.nodes == s.nodes && req.role.ValidatorRole? && IsTarget(s, req, target)
    requires Obtained(s, s1, cfg, req.role, env) && t == TrancheIndex(s, req.role)
    requires IsValidator(v, CountType(s.nodes, VALIDATOR)) && ClientOf(v) == req.client
    requires TalksTo(req.client, v.spec, target)
    requires LoadedKeys(ClientOf(v), v.spec) == BlsKeys(s1.tranches[t].accounts)
    ensures var s' := s1.(nodes := s1.nodes + [v], tranches := Take(s1.tranches, t, v.spec.name));
            Inv(s', cfg) && ValidatorAdded(s, s', cfg, req, env, target)
  {
    AppendValidator(s1, cfg, v, t, target);
    var tranches := Take(s1.tranches, t, v.spec.name);
    assert tranches == TranchesWith(s, cfg, req.role, env, v.spec.name);
    assert Owns(v, tranches[t]);
  }

  predicate ValidatorSucceeds(s: State, req: Request, env: Env, k: nat)
    requires req.role.ValidatorRole?
  {
    && TrancheAvailable(s, req.role, env)
    && KeystoresOk(req.client, TrancheSize(s, req.role, env), env.keystoreOk)
    && LaunchOk(env, k)
  }

  function Registered(s1: State, cfg: Config, req: Request, t: nat, target: NodeData, ip: string): State
    requires t in s1.tranches
  {
    var v := ValidatorNode(cfg, req, CountType(s1.nodes, VALIDATOR), s1.tranches[t].accounts, target, ip);
    s1.(nodes := s1.nodes + [v], tranches := Take(s1.tranches, t, v.spec.name))
  }

  /** DeployValidator with a beacon at hand, case by case. */
  lemma DeployValidatorCases(s: State, cfg: Config, req: Request, env: Env, target: NodeData, k: nat)
    requires req.role.ValidatorRole? && Supported(req.client)
    ensures var (s1, index) := ObtainTranche(s, cfg, req.role, env);
            var r := DeployValidator(s, cfg, req, env, Some(target), k);
            if index.Some? && KeystoresOk(req.client, |s1.tranches[index.value].accounts|, env.keystoreOk) && LaunchOk(env, k)
            then r == (Registered(s1, cfg, req, index.value, target, env.ip(k)), true)
            else r == (s1, false)
  {
  }

  lemma ValidatorDeployedTo(s: State, cfg: Config, req: Request, env: Env, target: NodeData, k: nat)
    requires Inv(s, cfg) && Fresh(s, env.accounts) && req.role.ValidatorRole? && IsTarget(s, req, target)
    ensures var (s', ok) := DeployValidator(s, cfg, req, env, Some(target), k);
            && Inv(s', cfg)
            && (ok <==> ValidatorSucceeds(s, req, env, k))
            && (ok ==> ValidatorAdded(s, s', cfg, req, env, target))
            && (!ok ==> ValidatorFailed(s, s', cfg, req, env))
  {
    TrancheObtained(s, cfg, req.role, env);
    DeployValidatorCases(s, cfg, req, env, target, k);
    var s1 := ObtainTranche(s, cfg, req.role, env).0;
    if ValidatorSucceeds(s, req, env, k) {
      ValidatorRegistered(s, s1, cfg, req, env, target, env.ip(k));
    }
  }

  // ---------- NodeDeploy ----------

  predicate HasRegisteredBeacon(s: State, c: NodeClient) {
    PickBeacon(s.nodes, c).Some?
  }

  /** Everything that has to go right for the request to succeed. */
  predicate DeploySucceeds(s: State, req: Request, env: Env) {
    var n := BeaconCount(req.role);
    && (n > 0 ==> Supported(req.client) && Launches(env, 0, n))
    && (req.role.ValidatorRole? ==>
          && (n > 0 || HasRegisteredBeacon(s, req.client))
          && ValidatorSucceeds(s, req, env, n))
  }

  /** Success: the node list grew by exactly the requested beacons and then the validator, if one was requested, which
      owns the one tranche that changed and talks to the first of the new beacons or, without new ones, to the first
      registered beacon of its client. */
  ghost predicate Committed(s: State, s': State, cfg: Config, req: Request, env: Env) {
    var n := |s.nodes| + BeaconCount(req.role);
    && n <= |s'.nodes|
    && AddedBeacons(s.nodes, s'.nodes[..n], req.client)
    && if req.role.BeaconRole? then |s'.nodes| == n && s'.tranches == s.tranches
       else ValidatorOnTop(s, s', cfg, req, env, n)
  }

  ghost predicate ValidatorOnTop(s: State, s': State, cfg: Config, req: Request, env: Env, n: nat)
    requires n <= |s'.nodes| && req.role.ValidatorRole?
  {
    var target := if BeaconCount(req.role) > 0 && |s.nodes| < n then Some(s'.nodes[|s.nodes|])
                  else PickBeacon(s.nodes, req.client);
    target.Some? && target.value in s'.nodes[..n]
    && ValidatorAdded(s.(nodes := s'.nodes[..n]), s', cfg, req, env, target.value)
  }

  /** Failure: only beacons were added, no tranche was consumed, and at most one new tranche was left unconsumed. */
  ghost predicate Aborted(s: State, s': State, cfg: Config, req: Request, env: Env) {
    && |s'.nodes| <= |s.nodes| + BeaconCount(req.role)
    && AddedBeacons(s.nodes, s'.nodes, req.client)
    && (s'.tranches == s.tranches
        || (req.role.ValidatorRole? && req.role.numValidators != 0 && TrancheAvailable(s, req.role, env)
            && s'.tranches == TranchesWith(s, cfg, req.role, env, "")))
  }

  /** The beacons of a request, put together. */
  lemma BeaconsPart(s: State, cfg: Config, req: Request, env: Env, n: nat)
    requires Inv(s, cfg)
    ensures var (s1, ok) := DeployBeacons(s, cfg, req, env, 0, n);
            && Inv(s1, cfg) && s1.tranches == s.tranches && s1.issued == s.issued
            && |s1.nodes| <= |s.nodes| + n && AddedBeacons(s.nodes, s1.nodes, req.client)
            && (ok <==> n == 0 || (Supported(req.client) && Launches(env, 0, n)))
            && (ok ==> |s1.nodes| == |s.nodes| + n)
            && (!Supported(req.client) || n == 0 ==> s1 == s)
  {
    BeaconsKeepInv(s, cfg, req, env, 0, n);
    BeaconsAdded(s, cfg, req, env, 0, n);
    BeaconsSucceed(s, cfg, req, env, 0, n);
  }

  /** The first new beacon is a target; so is the one picked from the list. */
  lemma TargetIsBeacon(s: State, cfg: Config, s1: State, req: Request)
    requires Inv(s1, cfg) && AddedBeacons(s.nodes, s1.nodes, req.client)
    ensures |s1.nodes| > |s.nodes| ==> IsTarget(s1, req, s1.nodes[|s.nodes|])
    ensures PickBeacon(s1.nodes, req.client).Some? ==> IsTarget(s1, req, PickBeacon(s1.nodes, req.client).value)
  {
    PickedBeacon(s1.nodes, req.client);
    var picked := PickBeacon(s1.nodes, req.client);
    if picked.Some? {
      RegisteredBeaconSupported(s1.nodes, picked.value, req.client);
    }
  }

  lemma ValidatorPart(s: State, cfg: Config, req: Request, env: Env, target: Option<NodeData>, k: nat)
    requires Inv(s, cfg) && Fresh(s, env.accounts) && req.role.ValidatorRole?
    requires target.Some? ==> IsTarget(s, req, target.value)
    ensures var (s', ok) := DeployValidator(s, cfg, req, env, target, k);
            && Inv(s', cfg)
            && (ok <==> (target.Some? || HasRegisteredBeacon(s, req.client)) && ValidatorSucceeds(s, req, env, k))
            && (ok ==> var b := if target.Some? then target else PickBeacon(s.nodes, req.client);
                       b.Some? && b.value in s.nodes && ValidatorAdded(s, s', cfg, req, env, b.value))
            && (!ok ==> ValidatorFailed(s, s', cfg, req, env))
            && (target.None? && !Supported(req.client) ==> s' == s && !ok)
  {
    var beacon := if target.Some? then target else PickBeacon(s.nodes, req.client);
    if beacon.Some? {
      TargetIsBeacon(s, cfg, s, req);
      ValidatorDeployedTo(s, cfg, req, env, beacon.value, k);
      assert DeployValidator(s, cfg, req, env, target, k) == DeployValidator(s, cfg, req, env, beacon, k);
    }
  }

  /** Putting the two parts together. */
  lemma ValidatorFinishes(s: State, s1: State, s': State, cfg: Config, req: Request, env: Env)
    requires req.role.ValidatorRole?
    requires s1 == s.(nodes := s1.nodes) && AddedBeacons(s.nodes, s1.nodes, req.client)
    requires |s1.nodes| == |s.nodes| + BeaconCount(req.role)
    requires BeaconCount(req.role) == 0 ==> s1 == s
    requires var b := if BeaconCount(req.role) > 0 then Some(s1.nodes[|s.nodes|]) else PickBeacon(s1.nodes, req.client);
             b.Some? && b.value in s1.nodes && ValidatorAdded(s1, s', cfg, req, env, b.value)
    ensures Committed(s, s', cfg, req, env)
  {
    assert s'.nodes[..|s1.nodes|] == s1.nodes;
    assert s.(nodes := s1.nodes) == s1;
  }

  lemma ValidatorGivesUp(s: State, s1: State, s': State, cfg: Config, req: Request, env: Env)
    requires req.role.ValidatorRole? && s1 == s.(nodes := s1.nodes) && AddedBeacons(s.nodes, s1.nodes, req.client)
    requires |s1.nodes| == |s.nodes| + BeaconCount(req.role) && ValidatorFailed(s1, s', cfg, req, env)
    ensures Aborted(s, s', cfg, req, env)
  {
    SameTranches(s, s1, cfg, req, env, 0);
  }

  lemma BeaconsOnly(s: State, s1: State, ok: bool, cfg: Config, req: Request, env: Env)
    requires s1.tranches == s.tranches && AddedBeacons(s.nodes, s1.nodes, req.client)
    requires |s1.nodes| <= |s.nodes| + BeaconCount(req.role)
    requires ok ==> req.role.BeaconRole? && |s1.nodes| == |s.nodes| + BeaconCount(req.role)
    ensures ok ==> Committed(s, s1, cfg, req, env)
    ensures !ok ==> Aborted(s, s1, cfg, req, env)
  {
    assert s1.nodes[..|s1.nodes|] == s1.nodes;
  }

  /** NodeDeploy is atomic-looking: it succeeds exactly when all its sub-steps do, and either commits or aborts. */
  lemma NodeDeployAtomic(s: State, cfg: Config, req: Request, env: Env)
    requires Inv(s, cfg) && Fresh(s, env.accounts)
    ensures var (s', ok) := NodeDeploy(s, cfg, req, env);
            && Inv(s', cfg)
            && (ok <==> DeploySucceeds(s, req, env))
            && (ok ==> Committed(s, s', cfg, req, env))
            && (!ok ==> Aborted(s, s', cfg, req, env))
  {
    var n := BeaconCount(req.role);
    var (s1, beaconsOk) := DeployBeacons(s, cfg, req, env, 0, n);
    BeaconsPart(s, cfg, req, env, n);
    if beaconsOk && req.role.ValidatorRole? {
      NodeDeployValidator(s, s1, cfg, req, env);
    } else {
      assert NodeDeploy(s, cfg, req, env) == (s1, beaconsOk);
      BeaconsOnly(s, s1, beaconsOk, cfg, req, env);
    }
  }

  lemma NodeDeployValidator(s: State, s1: State, cfg: Config, req: Request, env: Env)
    requires Inv(s, cfg) && Inv(s1, cfg) && Fresh(s, env.accounts) && req.role.ValidatorRole?
    requires DeployBeacons(s, cfg, req, env, 0, BeaconCount(req.role)) == (s1, true)
    requires s1 == s.(nodes := s1.nodes) && AddedBeacons(s.nodes, s1.nodes, req.client)
    requires |s1.nodes| == |s.nodes| + BeaconCount(req.role)
    requires BeaconCount(req.role) > 0 ==> Supported(req.client) && Launches(env, 0, BeaconCount(req.role))
    requires BeaconCount(req.role) == 0 ==> s1 == s
    ensures var (s', ok) := NodeDeploy(s, cfg, req, env);
            && Inv(s', cfg)
            && (ok <==> DeploySucceeds(s, req, env))
            && (ok ==> Committed(s, s', cfg, req, env))
            && (!ok ==> Aborted(s, s', cfg, req, env))
  {
    var n := BeaconCount(req.role);
    var target := if n > 0 then Some(s1.nodes[|s.nodes|]) else None;
    TargetIsBeacon(s, cfg, s1, req);
    ValidatorPart(s1, cfg, req, env, target, n);
    var (s', ok) := DeployValidator(s1, cfg, req, env, target, n);
    assert NodeDeploy(s, cfg, req, env) == (s', ok);
    SameTranches(s, s1, cfg, req, env, n);
    if ok {
      ValidatorFinishes(s, s1, s', cfg, req, env);
    } else {
      ValidatorGivesUp(s, s1, s', cfg, req, env);
    }
  }

  lemma SameTranches(s: State, s1: State, cfg: Config, req: Request, env: Env, k: nat)
    requires req.role.ValidatorRole? && s1.tranches == s.tranches
    ensures TrancheAvailable(s1, req.role, env) == TrancheAvailable(s, req.role, env)
    ensures ValidatorSucceeds(s1, req, env, k) == ValidatorSucceeds(s, req, env, k)
    ensures TrancheAvailable(s, req.role, env) ==>
              TranchesWith(s1, cfg, req.role, env, "") == TranchesWith(s, cfg, req.role, env, "")
  {
  }

  /** A request for an unsupported client never changes anything: no node, no tranche, no generated account. */
  lemma UnsupportedChangesNothing(s: State, cfg: Config, req: Request, env: Env)
    requires Inv(s, cfg) && Fresh(s, env.accounts) && !Supported(req.client)
    ensures NodeDeploy(s, cfg, req, env) == (s, req.role.BeaconRole? && BeaconCount(req.role) == 0)
  {
    var n := BeaconCount(req.role);
    BeaconsPart(s, cfg, req, env, n);
    if n == 0 && req.role.ValidatorRole? {
      ValidatorPart(s, cfg, req, env, None, n);
    }
  }

  // ---------- images and labels ----------

  /** The image of a registered node: the request's repository and tag where given, otherwise the client's own. */
  predicate HasImage(cfg: Config, req: Request, typ: string, n: NodeData) {
    && n.spec.repository == (if req.repo != "" then req.repo else Repository(req.client, typ))
    && n.spec.tag == (if req.tag != "" then req.tag else Tag(req.client))
    && Label(n.spec.labels, "viewpoint") == "true" && Label(n.spec.labels, "env") == cfg.name
  }

  lemma BeaconImage(cfg: Config, req: Request, k: nat, ip: string)
    ensures HasImage(cfg, req, BEACON, BeaconNode(cfg, req, k, ip))
  {
    assert "viewpoint" != "env";
  }

  lemma ValidatorImage(cfg: Config, req: Request, k: nat, accounts: seq<Account>, target: NodeData, ip: string)
    ensures HasImage(cfg, req, VALIDATOR, ValidatorNode(cfg, req, k, accounts, target, ip))
  {
    assert "viewpoint" != "env";
  }

  lemma {:induction false} BeaconsImages(s: State, cfg: Config, req: Request, env: Env, k: nat, n: nat, i: nat)
    requires k <= n && |s.nodes| <= i < |DeployBeacons(s, cfg, req, env, k, n).0.nodes|
    ensures HasImage(cfg, req, BEACON, DeployBeacons(s, cfg, req, env, k, n).0.nodes[i])
    decreases n - k
  {
    if k < n && Supported(req.client) && LaunchOk(env, k) {
      var node := BeaconNode(cfg, req, CountType(s.nodes, BEACON), env.ip(k));
      var s1 := s.(nodes := s.nodes + [node]);
      BeaconImage(cfg, req, CountType(s.nodes, BEACON), env.ip(k));
      BeaconsAppend(s1, cfg, req, env, k + 1, n);
      if i > |s.nodes| {
        BeaconsImages(s1, cfg, req, env, k + 1, n, i);
      }
    }
  }

  /** A validator deployment registers at most a validator node for some accounts. */
  lemma LastNode(s: State, cfg: Config, req: Request, env: Env, target: NodeData, k: nat) returns (accounts: seq<Account>)
    requires req.role.ValidatorRole? && Supported(req.client)
    ensures var nodes := DeployValidator(s, cfg, req, env, Some(target), k).0.nodes;
            || nodes == s.nodes
            || nodes == s.nodes + [ValidatorNode(cfg, req, CountType(s.nodes, VALIDATOR), accounts, target, env.ip(k))]
  {
    DeployValidatorCases(s, cfg, req, env, target, k);
    var (s1, index) := ObtainTranche(s, cfg, req.role, env);
    assert s1.nodes == s.nodes;
    accounts := if index.Some? then s1.tranches[index.value].accounts else [];
  }

  lemma LastImage(s: State, cfg: Config, req: Request, env: Env, target: NodeData, k: nat, i: nat)
    requires req.role.ValidatorRole? && Supported(req.client)
    requires |s.nodes| <= i < |DeployValidator(s, cfg, req, env, Some(target), k).0.nodes|
    ensures HasImage(cfg, req, VALIDATOR, DeployValidator(s, cfg, req, env, Some(target), k).0.nodes[i])
  {
    var accounts := LastNode(s, cfg, req, env, target, k);
    ValidatorImage(cfg, req, CountType(s.nodes, VALIDATOR), accounts, target, env.ip(k));
  }

  lemma PickedImage(s: State, cfg: Config, req: Request, env: Env, target: Option<NodeData>, k: nat, i: nat)
    requires req.role.ValidatorRole? && |s.nodes| <= i < |DeployValidator(s, cfg, req, env, target, k).0.nodes|
    ensures HasImage(cfg, req, VALIDATOR, DeployValidator(s, cfg, req, env, target, k).0.nodes[i])
  {
    var beacon := if target.Some? then target else PickBeacon(s.nodes, req.client);
    assert beacon.Some? && Supported(req.client);
    assert DeployValidator(s, cfg, req, env, target, k) == DeployValidator(s, cfg, req, env, Some(beacon.value), k);
    LastImage(s, cfg, req, env, beacon.value, k, i);
  }

  lemma ValidatorComesLast(s: State, cfg: Config, req: Request, env: Env, s1: State, ok: bool)
    requires DeployBeacons(s, cfg, req, env, 0, BeaconCount(req.role)) == (s1, ok)
    requires ok ==> |s1.nodes| == |s.nodes| + BeaconCount(req.role)
    ensures !ok || req.role.BeaconRole? ==> NodeDeploy(s, cfg, req, env).0 == s1
    ensures ok && req.role.ValidatorRole? ==>
              NodeDeploy(s, cfg, req, env)
              == DeployValidator(s1, cfg, req, env, if BeaconCount(req.role) > 0 then Some(s1.nodes[|s.nodes|]) else None,
                                 BeaconCount(req.role))
  {
    assert NodeDeploy(s, cfg, req, env) ==
             if !ok || req.role.BeaconRole? then (s1, ok)
             else DeployValidator(s1, cfg, req, env, if BeaconCount(req.role) > 0 then Some(s1.nodes[|s.nodes|]) else None,
                                  BeaconCount(req.role));
  }

  lemma ValidatorKeepsNodes(s: State, cfg: Config, req: Request, env: Env, target: Option<NodeData>, k: nat)
    requires req.role.ValidatorRole?
    ensures s.nodes <= DeployValidator(s, cfg, req, env, target, k).0.nodes
  {
    var beacon := if target.Some? then target else PickBeacon(s.nodes, req.client);
    if beacon.Some? && Supported(req.client) {
      assert DeployValidator(s, cfg, req, env, target, k) == DeployValidator(s, cfg, req, env, Some(beacon.value), k);
      var accounts := LastNode(s, cfg, req, env, beacon.value, k);
    }
  }

  /** Every node that a request registers, also one that fails later, runs the requested image. */
  lemma RequestedImages(s: State, cfg: Config, req: Request, env: Env, i: nat)
    requires |s.nodes| <= i < |NodeDeploy(s, cfg, req, env).0.nodes|
    ensures HasImage(cfg, req, BEACON, NodeDeploy(s, cfg, req, env).0.nodes[i])
            || HasImage(cfg, req, VALIDATOR, NodeDeploy(s, cfg, req, env).0.nodes[i])
  {
    var count := BeaconCount(req.role);
    var (s1, ok) := DeployBeacons(s, cfg, req, env, 0, count);
    BeaconsAppend(s, cfg, req, env, 0, count);
    ValidatorComesLast(s, cfg, req, env, s1, ok);
    if i < |s1.nodes| {
      BeaconsImages(s, cfg, req, env, 0, count, i);
    }
    if ok && req.role.ValidatorRole? {
      var target := if count > 0 then Some(s1.nodes[|s.nodes|]) else None;
      ValidatorKeepsNodes(s1, cfg, req, env, target, count);
      if i >= |s1.nodes| {
        PickedImage(s1, cfg, req, env, target, count, i);
      }
    }
  }

  // ---------- DepositCreate ----------

  /** DepositCreate succeeds exactly when its deposits, the marshalling and the file write do, and then the next tranche
      has the accounts, its own file and no owner; otherwise no tranche changes. */
  lemma DepositCreateExact(s: State, cfg: Config, env: Env)
    requires Dense(s.tranches)
    ensures var (s', ok) := DepositCreate(s, cfg, env);
            && s'.nodes == s.nodes && s'.issued == s.issued + PubKeys(env.accounts)
            && (ok <==> env.depositsOk && AllMarshal(env.accounts) && env.writeOk)
            && s'.tranches.Keys == s.tranches.Keys + (if ok then {|s.tranches|} else {})
            && (forall k :: k in s.tranches ==> s'.tranches[k] == s.tranches[k])
            && (ok ==> s'.tranches[|s.tranches|] == TrancheData(env.accounts, TranchePath(cfg.dir, |s.tranches|), ""))
  {
    assert |s.tranches| !in s.tranches;
  }
}
