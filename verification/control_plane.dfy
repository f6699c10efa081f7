/** The control plane on values: what each request does to the registered nodes and the tranches, as functions of the
    outcomes of everything the program cannot control. The Server class is proved against these functions. */
module ControlPlane {
  import opened GoIntegers
  import opened Wrappers
  import opened Text
  import opened Keys
  import opened ContainerSpec
  import opened Components

  datatype Config = Config(
    name: string, dir: string, spec: string, eth1: string, bootnode: string, genesisSSZ: string)

  /** validator is the name of the node that consumed the tranche, or empty. */
  datatype TrancheData = TrancheData(accounts: seq<Account>, filepath: string, validator: string)

  predicate IsConsumed(t: TrancheData) {
    t.validator != ""
  }

  /** issued are the public keys of all accounts generated so far, also of tranches whose creation failed. */
  datatype State = State(nodes: seq<NodeData>, tranches: map<nat, TrancheData>, issued: set<Bytes>)

  /** The outcomes during one request: the accounts a new tranche would get, whether its deposits and its file write
      succeed, which key encryptions succeed, and for the k-th container whether its log file and its deployment succeed
      and the address it gets. */
  datatype Env = Env(
    accounts: seq<Account>, depositsOk: bool, writeOk: bool, keystoreOk: nat -> bool,
    logOk: nat -> bool, dockerOk: nat -> bool, ip: nat -> string)

  predicate Fresh(s: State, accounts: seq<Account>) {
    Distinct(accounts) && PubKeys(accounts) !! s.issued
  }

  datatype Role =
    | BeaconRole(count: nat)
    | ValidatorRole(numValidators: nat, numTranch: nat, withBeacon: bool, beaconCount: nat)

  datatype Request = Request(client: NodeClient, repo: string, tag: string, role: Role)

  // ---------- names ----------

  function NodeName(prefix: string, k: nat, c: NodeClient): string {
    prefix + Decimal(k) + "-" + ToLower(ClientName(c))
  }

  function BeaconName(k: nat, c: NodeClient): string {
    NodeName("beacon-", k, c)
  }

  function ValidatorName(k: nat, c: NodeClient): string {
    NodeName("validator-", k, c)
  }

  lemma NodeNameInjective(prefix: string, j: nat, c: NodeClient, k: nat, d: NodeClient)
    requires NodeName(prefix, j, c) == NodeName(prefix, k, d)
    ensures j == k
  {
    var a, b := NodeName(prefix, j, c), NodeName(prefix, k, d);
    var x, y := ToLower(ClientName(c)), ToLower(ClientName(d));
    assert a[|prefix|..] == Decimal(j) + "-" + x && b[|prefix|..] == Decimal(k) + "-" + y;
    SeparatorSplits(Decimal(j), x, Decimal(k), y, '-');
    DecimalInjective(j, k);
  }

  function TranchePath(dir: string, n: nat): string {
    dir + "/tranche_" + Decimal(n) + ".txt"
  }

  lemma TranchePathInjective(dir: string, m: nat, n: nat)
    requires TranchePath(dir, m) == TranchePath(dir, n)
    ensures m == n
  {
    var d := dir + "/tranche_";
    var a, b := d + Decimal(m) + ".txt", d + Decimal(n) + ".txt";
    assert a[|d|..|a| - 4] == Decimal(m) && b[|d|..|b| - 4] == Decimal(n);
    DecimalInjective(m, n);
  }

  // ---------- nodes ----------

  predicate HasType(n: NodeData, typ: string) {
    HasLabel(n.spec, TYPE_LABEL, typ)
  }

  predicate HasClient(n: NodeData, c: NodeClient) {
    HasLabel(n.spec, CLIENT_LABEL, ClientName(c))
  }

  /** numOfNodes: how many registered nodes carry the type label. */
  function CountType(nodes: seq<NodeData>, typ: string): nat {
    if nodes == [] then 0
    else CountType(nodes[..|nodes| - 1], typ) + if HasType(nodes[|nodes| - 1], typ) then 1 else 0
  }

  /** The first registered beacon node of the client. */
  function PickBeacon(nodes: seq<NodeData>, c: NodeClient): Option<NodeData> {
    if nodes == [] then None
    else if HasType(nodes[0], BEACON) && HasClient(nodes[0], c) then Some(nodes[0])
    else PickBeacon(nodes[1..], c)
  }

  /** What is deployed: the description with the two common labels and the default tag. */
  function Launched(cfg: Config, spec: SpecData): SpecData {
    spec.(tag := if spec.tag == "" then "latest" else spec.tag,
          labels := spec.labels["viewpoint" := "true"]["env" := cfg.name])
  }

  /** The description of a requested container after naming it and applying the overrides of the request. */
  function Prepared(cfg: Config, req: Request, name: string, spec: SpecData): SpecData {
    var repository := if req.repo != "" then req.repo else spec.repository;
    var tag := if req.tag != "" then req.tag else spec.tag;
    Launched(cfg, spec.(name := name, repository := repository, tag := tag))
  }

  function BeaconConfigOf(cfg: Config): BeaconConfig {
    BeaconConfig(cfg.spec, cfg.eth1, cfg.bootnode, cfg.genesisSSZ)
  }

  function BeaconNode(cfg: Config, req: Request, k: nat, ip: string): NodeData {
    NodeData(Prepared(cfg, req, BeaconName(k, req.client), BeaconSpec(req.client, BeaconConfigOf(cfg))), ip)
  }

  function ValidatorNode(cfg: Config, req: Request, k: nat, accounts: seq<Account>, target: NodeData, ip: string): NodeData {
    NodeData(Prepared(cfg, req, ValidatorName(k, req.client),
                      ValidatorSpec(req.client, ValidatorConfig(accounts, cfg.spec, target))), ip)
  }

  // ---------- requests ----------

  /** A new tranche at the next index, unless a sub-step fails. */
  function CreateTranche(s: State, cfg: Config, env: Env, deposit: bool): (State, Option<nat>) {
    var s' := s.(issued := s.issued + PubKeys(env.accounts));
    if (deposit && !env.depositsOk) || !AllMarshal(env.accounts) || !env.writeOk then (s', None)
    else
      var n := |s.tranches|;
      (s'.(tranches := s.tranches[n := TrancheData(env.accounts, TranchePath(cfg.dir, n), "")]), Some(n))
  }

  predicate LaunchOk(env: Env, k: nat) {
    env.logOk(k) && env.dockerOk(k)
  }

  /** Deploys beacons k..n-1 of a request, stopping at the first that fails. */
  function DeployBeacons(s: State, cfg: Config, req: Request, env: Env, k: nat, n: nat): (State, bool)
    requires k <= n
    decreases n - k
  {
    if k == n then (s, true)
    else if !Supported(req.client) || !LaunchOk(env, k) then (s, false)
    else
      var node := BeaconNode(cfg, req, CountType(s.nodes, BEACON), env.ip(k));
      DeployBeacons(s.(nodes := s.nodes + [node]), cfg, req, env, k + 1, n)
  }

  /** The tranche a validator request selects or creates. */
  function ObtainTranche(s: State, cfg: Config, role: Role, env: Env): (State, Option<nat>)
    requires role.ValidatorRole?
  {
    if role.numValidators != 0 then CreateTranche(s, cfg, env, true)
    else if role.numTranch in s.tranches && !IsConsumed(s.tranches[role.numTranch]) then (s, Some(role.numTranch))
    else (s, None)
  }

  /** Deploys the validator as the k-th container of the request and consumes its tranche. */
  function DeployValidator(s: State, cfg: Config, req: Request, env: Env, target: Option<NodeData>, k: nat): (State, bool)
    requires req.role.ValidatorRole?
  {
    var beacon := if target.Some? then target else PickBeacon(s.nodes, req.client);
    if beacon.None? then (s, false)
    else
      var (s1, index) := ObtainTranche(s, cfg, req.role, env);
      if index.None? then (s1, false)
      else
        var tranche := s1.tranches[index.value];
        if !Supported(req.client) || !KeystoresOk(req.client, |tranche.accounts|, env.keystoreOk) || !LaunchOk(env, k)
        then (s1, false)
        else
          var node := ValidatorNode(cfg, req, CountType(s1.nodes, VALIDATOR), tranche.accounts, beacon.value, env.ip(k));
          (s1.(nodes := s1.nodes + [node],
               tranches := s1.tranches[index.value := tranche.(validator := node.spec.name)]), true)
  }

  function BeaconCount(role: Role): nat {
    match role
    case BeaconRole(count) => LoopCount(count)
    case ValidatorRole(_, _, withBeacon, beaconCount) => if withBeacon then LoopCount(beaconCount) else 0
  }

  lemma {:induction false} BeaconsAppend(s: State, cfg: Config, req: Request, env: Env, k: nat, n: nat)
    requires k <= n
    ensures s.nodes <= DeployBeacons(s, cfg, req, env, k, n).0.nodes
    ensures DeployBeacons(s, cfg, req, env, k, n).1 ==> |DeployBeacons(s, cfg, req, env, k, n).0.nodes| == |s.nodes| + n - k
    decreases n - k
  {
    if k < n && Supported(req.client) && LaunchOk(env, k) {
      var node := BeaconNode(cfg, req, CountType(s.nodes, BEACON), env.ip(k));
      BeaconsAppend(s.(nodes := s.nodes + [node]), cfg, req, env, k + 1, n);
    }
  }

  /** NodeDeploy. The response lists the stubs of the nodes it added. */
  function NodeDeploy(s: State, cfg: Config, req: Request, env: Env): (State, bool) {
    var n := BeaconCount(req.role);
    var (s1, ok) := DeployBeacons(s, cfg, req, env, 0, n);
    if !ok || req.role.BeaconRole? then (s1, ok)
    else
      BeaconsAppend(s, cfg, req, env, 0, n);
      DeployValidator(s1, cfg, req, env, if n > 0 then Some(s1.nodes[|s.nodes|]) else None, n)
  }

  function DepositCreate(s: State, cfg: Config, env: Env): (State, bool) {
    var (s', index) := CreateTranche(s, cfg, env, true);
    (s', index.Some?)
  }

  // ---------- start-up ----------

  const BOOTNODE: SpecData :=
    SpecData("bootnode", "gcr.io/prysmaticlabs/prysm/bootnode", "", [], [], map[], map[], "")
  const BOOTNODE_V4: SpecData :=
    SpecData("bootnode-v4", "ethereum/client-go", "alltools-release-1.10", [], [], map[], map[], "")
  const ETH1: SpecData :=
    SpecData("eth1", "ethereum/client-go", "v1.10.20", [], ["/data"], map[], map["clique-validator" := "true"], "")

  /** The outcomes during start-up: for the three system containers, for the deposit contract, for each genesis tranche
      the accounts it gets and its file write, and for producing the genesis state and its files. */
  datatype StartEnv = StartEnv(
    logOk: nat -> bool, dockerOk: nat -> bool, ip: nat -> string, contractOk: bool,
    accounts: seq<seq<Account>>, writeOk: nat -> bool, genesisOk: bool)

  function SystemNode(cfg: Config, env: StartEnv, k: nat): NodeData {
    NodeData(Launched(cfg, if k == 0 then BOOTNODE else if k == 1 then BOOTNODE_V4 else ETH1), env.ip(k))
  }

  function SystemNodes(cfg: Config, env: StartEnv): seq<NodeData> {
    [SystemNode(cfg, env, 0), SystemNode(cfg, env, 1), SystemNode(cfg, env, 2)]
  }

  function FirstState(cfg: Config, env: StartEnv): State {
    State(SystemNodes(cfg, env), map[], {})
  }

  predicate SystemOk(env: StartEnv) {
    env.contractOk && forall k :: 0 <= k < 3 ==> env.logOk(k) && env.dockerOk(k)
  }

  function TrancheEnv(env: StartEnv, i: nat): Env
    requires i < |env.accounts|
  {
    Env(env.accounts[i], false, env.writeOk(i), _ => false, _ => false, _ => false, _ => "")
  }

  /** Creates the genesis tranches from i on, without deposits. */
  function GenesisTranches(s: State, cfg: Config, env: StartEnv, i: nat): (State, bool)
    requires i <= |env.accounts|
    decreases |env.accounts| - i
  {
    if i == |env.accounts| then (s, true)
    else
      var (s', index) := CreateTranche(s, cfg, TrancheEnv(env, i), false);
      if index.None? then (s', false) else GenesisTranches(s', cfg, env, i + 1)
  }

  /** The state of a server that has just come up, or None when start-up fails. */
  function Start(cfg: Config, env: StartEnv): Option<State> {
    if !SystemOk(env) then None
    else
      var (s, ok) := GenesisTranches(FirstState(cfg, env), cfg, env, 0);
      if ok && env.genesisOk then Some(s) else None
  }
}
