/** The guarantees over every run of the server: from start-up through any sequence of requests with any failures. */
module ControlPlaneTheorems {
  import opened GoIntegers
  import opened Wrappers
  import opened Keys
  import opened ContainerSpec
  import opened Components
  import opened ControlPlane
  import opened ControlPlaneProofs
  import opened ControlPlaneRuns
  import Deployment
  import Genesis

  // ---------- start-up ----------

  /** All accounts generated at start-up are different. */
  predicate StartFresh(accounts: seq<seq<Account>>) {
    Genesis.AllApart(accounts)
  }

  lemma SystemNodesInv(cfg: Config, env: StartEnv)
    ensures NodesInv(SystemNodes(cfg, env))
    ensures forall i :: 0 <= i < |SystemNodes(cfg, env)| ==> !HasType(SystemNodes(cfg, env)[i], VALIDATOR)
  {
    assert TYPE_LABEL != "viewpoint" && TYPE_LABEL != "env" && TYPE_LABEL != "clique-validator";
    assert CLIENT_LABEL != "viewpoint" && CLIENT_LABEL != "env" && CLIENT_LABEL != "clique-validator";
  }

  ghost predicate GenesisSoFar(s: State, cfg: Config, accounts: seq<seq<Account>>, i: nat)
    requires i <= |accounts|
  {
    && |s.tranches| == i
    && forall t :: 0 <= t < i ==> t in s.tranches && s.tranches[t] == TrancheData(accounts[t], TranchePath(cfg.dir, t), "")
  }

  /** One more genesis tranche. */
  lemma GenesisTrancheCreated(s: State, cfg: Config, env: StartEnv, i: nat)
    requires TranchesInv(s.tranches, s.issued, cfg) && i < |env.accounts| && GenesisSoFar(s, cfg, env.accounts, i)
    ensures var (s', index) := CreateTranche(s, cfg, TrancheEnv(env, i), false);
            index.Some? ==> GenesisSoFar(s', cfg, env.accounts, i + 1)
  {
    assert i !in s.tranches;
  }

  lemma {:induction false} GenesisTranchesCreated(s: State, cfg: Config, env: StartEnv, i: nat)
    requires Inv(s, cfg) && StartFresh(env.accounts) && i <= |env.accounts|
    requires forall j :: i <= j < |env.accounts| ==> PubKeys(env.accounts[j]) !! s.issued
    requires GenesisSoFar(s, cfg, env.accounts, i)
    ensures var (s', ok) := GenesisTranches(s, cfg, env, i);
            Inv(s', cfg) && s'.nodes == s.nodes && (ok ==> GenesisSoFar(s', cfg, env.accounts, |env.accounts|))
    decreases |env.accounts| - i
  {
    if i < |env.accounts| {
      CreateKeepsInv(s, cfg, TrancheEnv(env, i), false);
      GenesisTrancheCreated(s, cfg, env, i);
      var (s', index) := CreateTranche(s, cfg, TrancheEnv(env, i), false);
      if index.Some? {
        GenesisTranchesCreated(s', cfg, env, i + 1);
      }
    }
  }

  lemma FirstInv(nodes: seq<NodeData>, cfg: Config)
    requires NodesInv(nodes) && forall i :: 0 <= i < |nodes| ==> !HasType(nodes[i], VALIDATOR)
    ensures Inv(State(nodes, map[], {}), cfg)
  {
  }

  /** A server that comes up satisfies the invariant and has exactly the genesis tranches, in order. */
  lemma StartInv(cfg: Config, env: StartEnv)
    requires StartFresh(env.accounts) && Start(cfg, env).Some?
    ensures Inv(Start(cfg, env).value, cfg)
    ensures GenesisSoFar(Start(cfg, env).value, cfg, env.accounts, |env.accounts|)
  {
    var nodes := SystemNodes(cfg, env);
    SystemNodesInv(cfg, env);
    FirstInv(nodes, cfg);
    GenesisTranchesCreated(State(nodes, map[], {}), cfg, env, 0);
  }

  // ---------- genesis partition ----------

  /** Registry entry i is account i mod k of tranche i div k, where k is the number of accounts a tranche gets. */
  lemma RegistryPartition(s: State, cfg: Config, accounts: seq<seq<Account>>, k: nat, i: nat) returns (t: nat, j: nat)
    requires GenesisSoFar(s, cfg, accounts, |accounts|)
    requires forall t :: 0 <= t < |accounts| ==> |accounts[t]| == k
    requires i < |Genesis.Flatten(accounts)|
    ensures k > 0 && t == i / k && j == i % k
    ensures t in s.tranches && j < |s.tranches[t].accounts|
    ensures Genesis.Flatten(accounts)[i] == s.tranches[t].accounts[j]
  {
    t, j := Genesis.FlattenPartitions(accounts, k, i);
    TrancheEntry(s, cfg, accounts, t, j);
  }

  lemma TrancheEntry(s: State, cfg: Config, accounts: seq<seq<Account>>, t: nat, j: nat)
    requires GenesisSoFar(s, cfg, accounts, |accounts|) && t < |accounts| && j < |accounts[t]|
    ensures t in s.tranches && j < |s.tranches[t].accounts| && s.tranches[t].accounts[j] == accounts[t][j]
  {
  }

  ghost predicate KeyOfTranche(s: State, key: Bytes) {
    exists t :: t in s.tranches && key in PubKeys(s.tranches[t].accounts)
  }

  /** The public keys of the registry are different, and are exactly those of all tranches of a server that has just come
      up. */
  lemma RegistryKeys(cfg: Config, env: StartEnv, state: Genesis.BeaconState,
                     root: Genesis.ElementRoot, h: Genesis.Hash, lengthChunk: nat -> Genesis.Chunk)
    requires StartFresh(env.accounts) && Start(cfg, env).Some?
    requires Genesis.WellFormed(state, Genesis.Flatten(env.accounts), root, h, lengthChunk)
    ensures forall i, j :: 0 <= i < j < |state.validators| ==> state.validators[i].pubkey != state.validators[j].pubkey
    ensures forall key :: KeyOfTranche(Start(cfg, env).value, key) <==>
              exists i :: 0 <= i < |state.validators| && state.validators[i].pubkey == key
  {
    StartInv(cfg, env);
    RegistryIsTranches(Start(cfg, env).value, cfg, env.accounts, state, root, h, lengthChunk);
  }

  lemma RegistryIsTranches(s: State, cfg: Config, accounts: seq<seq<Account>>, state: Genesis.BeaconState,
                           root: Genesis.ElementRoot, h: Genesis.Hash, lengthChunk: nat -> Genesis.Chunk)
    requires GenesisSoFar(s, cfg, accounts, |accounts|) && StartFresh(accounts) && Dense(s.tranches)
    requires Genesis.WellFormed(state, Genesis.Flatten(accounts), root, h, lengthChunk)
    ensures forall i, j :: 0 <= i < j < |state.validators| ==> state.validators[i].pubkey != state.validators[j].pubkey
    ensures forall i :: 0 <= i < |state.validators| ==> KeyOfTranche(s, state.validators[i].pubkey)
    ensures forall key :: KeyOfTranche(s, key) ==> exists i :: 0 <= i < |state.validators| && state.validators[i].pubkey == key
  {
    var all := Genesis.Flatten(accounts);
    Genesis.FlattenDistinct(accounts);
    assert forall i :: 0 <= i < |all| ==> Genesis.RunsFromStart(state.validators[i], all[i]);
    forall i | 0 <= i < |all|
      ensures KeyOfTranche(s, state.validators[i].pubkey)
    {
      Genesis.FlattenKeys(accounts, all[i].bls.pub);
      var t :| 0 <= t < |accounts| && all[i].bls.pub in PubKeys(accounts[t]);
      assert s.tranches[t].accounts == accounts[t];
    }
    forall key | KeyOfTranche(s, key)
      ensures exists i :: 0 <= i < |state.validators| && state.validators[i].pubkey == key
    {
      var t :| t in s.tranches && key in PubKeys(s.tranches[t].accounts);
      assert key in PubKeys(accounts[t]);
      Genesis.FlattenKeys(accounts, key);
      var i :| 0 <= i < |all| && all[i].bls.pub == key;
      assert state.validators[i].pubkey == key;
    }
  }

  /** The genesis registry has the configured size exactly when both loop counts fit an int, or it is empty. */
  lemma RegistrySize(accounts: seq<seq<Account>>, numGenesis: nat, numTranches: nat)
    requires 0 < numTranches < TWO_64 && numGenesis < TWO_64 && numGenesis % numTranches == 0
    requires |accounts| == LoopCount(numTranches)
    requires forall t :: 0 <= t < |accounts| ==> |accounts[t]| == LoopCount(numGenesis / numTranches)
    ensures |Genesis.Flatten(accounts)| == numGenesis <==>
            numGenesis == 0 || (numTranches < TWO_63 && numGenesis / numTranches < TWO_63)
  {
    var k := numGenesis / numTranches;
    Quotient(numGenesis, numTranches);
    Genesis.FlattenLength(accounts, LoopCount(k));
    LoopCountExact(numTranches);
    LoopCountExact(k);
    ProductOfLoops(numTranches, k, |accounts|, LoopCount(k));
    assert numTranches * k == numGenesis;
  }

  lemma Quotient(a: nat, b: nat)
    requires b > 0 && a % b == 0
    ensures (a / b) * b == a && a / b <= a
  {
    var q := a / b;
    assert q * b + a % b == a;
    FactorGrows(q, b);
  }

  lemma FactorGrows(q: nat, b: nat)
    requires b > 0
    ensures q <= q * b
  {
  }

  lemma ProductOfLoops(t: nat, k: nat, m: nat, n: nat)
    requires m == if t < TWO_63 then t else 0
    requires n == if k < TWO_63 then k else 0
    ensures m * n == t * k <==> t * k == 0 || (t < TWO_63 && k < TWO_63)
  {
    if t >= TWO_63 || k >= TWO_63 {
      assert m * n == 0;
    }
  }

  // ---------- runs ----------

  datatype Event = Create(numValidators: nat, env: Env) | Deploy(req: Request, env: Env)

  /** How many accounts the request generates, if it comes to that. */
  function AccountCount(e: Event): nat {
    match e
    case Create(n, _) => LoopCount(n)
    case Deploy(req, _) => if req.role.ValidatorRole? then LoopCount(req.role.numValidators) else 0
  }

  function Step(s: State, cfg: Config, e: Event): State {
    match e
    case Create(_, env) => DepositCreate(s, cfg, env).0
    case Deploy(req, env) => NodeDeploy(s, cfg, req, env).0
  }

  /** Generated keys are new; nothing else is assumed about the outcomes. */
  predicate Possible(s: State, e: Event) {
    Fresh(s, e.env.accounts) && |e.env.accounts| == AccountCount(e)
  }

  predicate PossibleRun(s: State, cfg: Config, run: seq<Event>)
    decreases |run|
  {
    run == [] || (Possible(s, run[0]) && PossibleRun(Step(s, cfg, run[0]), cfg, run[1..]))
  }

  function After(s: State, cfg: Config, run: seq<Event>): State
    decreases |run|
  {
    if run == [] then s else After(Step(s, cfg, run[0]), cfg, run[1..])
  }

  /** State i of a trace is what start-up or the request before it led to. */
  ghost predicate Justified(cfg: Config, env: StartEnv, states: seq<State>, run: seq<Event>, i: nat)
    requires |states| == |run| + 1 && i <= |run|
  {
    if i == 0 then Start(cfg, env) == Some(states[0])
    else Possible(states[i - 1], run[i - 1]) && Step(states[i - 1], cfg, run[i - 1]) == states[i]
  }

  ghost predicate Trace(cfg: Config, env: StartEnv, states: seq<State>, run: seq<Event>) {
    && StartFresh(env.accounts) && |states| == |run| + 1
    && forall i :: 0 <= i <= |run| ==> Justified(cfg, env, states, run, i)
  }

  ghost predicate Reachable(s: State, cfg: Config) {
    exists env: StartEnv, states: seq<State>, run: seq<Event> :: Trace(cfg, env, states, run) && states[|run|] == s
  }

  /** No node disappears or changes, no tranche changes its accounts or file, and an owner stays for good. */
  ghost predicate Extends(s: State, s': State) {
    && s.nodes <= s'.nodes
    && s.issued <= s'.issued
    && forall k :: k in s.tranches ==>
         && k in s'.tranches
         && s'.tranches[k].accounts == s.tranches[k].accounts
         && s'.tranches[k].filepath == s.tranches[k].filepath
         && (IsConsumed(s.tranches[k]) ==> s'.tranches[k] == s.tranches[k])
  }

  lemma CreateExtends(s: State, cfg: Config, env: Env, deposit: bool)
    requires TranchesInv(s.tranches, s.issued, cfg)
    ensures Extends(s, CreateTranche(s, cfg, env, deposit).0)
  {
    assert |s.tranches| !in s.tranches;
  }

  lemma TakeExtends(s: State, t: nat, n: NodeData)
    requires t in s.tranches && !IsConsumed(s.tranches[t])
    ensures Extends(s, s.(nodes := s.nodes + [n], tranches := Take(s.tranches, t, n.spec.name)))
  {
  }

  lemma ObtainExtends(s: State, cfg: Config, role: Role, env: Env)
    requires TranchesInv(s.tranches, s.issued, cfg) && role.ValidatorRole?
    ensures var (s1, index) := ObtainTranche(s, cfg, role, env);
            Extends(s, s1) && (index.Some? ==> !IsConsumed(s1.tranches[index.value]))
  {
    if role.numValidators != 0 {
      CreateExtends(s, cfg, env, true);
    }
  }

  lemma DeployToExtends(s: State, cfg: Config, req: Request, env: Env, target: NodeData, k: nat)
    requires TranchesInv(s.tranches, s.issued, cfg) && req.role.ValidatorRole? && Supported(req.client)
    ensures Extends(s, DeployValidator(s, cfg, req, env, Some(target), k).0)
  {
    ObtainExtends(s, cfg, req.role, env);
    DeployValidatorCases(s, cfg, req, env, target, k);
    var (s1, index) := ObtainTranche(s, cfg, req.role, env);
    if index.Some? {
      var t := index.value;
      TakeExtends(s1, t, ValidatorNode(cfg, req, CountType(s1.nodes, VALIDATOR), s1.tranches[t].accounts, target, env.ip(k)));
      ExtendsTransitive(s, s1, Registered(s1, cfg, req, t, target, env.ip(k)));
    }
  }

  lemma DeployValidatorExtends(s: State, cfg: Config, req: Request, env: Env, target: Option<NodeData>, k: nat)
    requires TranchesInv(s.tranches, s.issued, cfg) && req.role.ValidatorRole?
    ensures Extends(s, DeployValidator(s, cfg, req, env, target, k).0)
  {
    var beacon := if target.Some? then target else PickBeacon(s.nodes, req.client);
    if beacon.Some? {
      ObtainExtends(s, cfg, req.role, env);
      assert DeployValidator(s, cfg, req, env, target, k) == DeployValidator(s, cfg, req, env, beacon, k);
      if Supported(req.client) {
        DeployToExtends(s, cfg, req, env, beacon.value, k);
      }
    }
  }

  lemma StepExtends(s: State, cfg: Config, e: Event)
    requires Inv(s, cfg) && Possible(s, e)
    ensures Inv(Step(s, cfg, e), cfg) && Extends(s, Step(s, cfg, e))
  {
    match e
    case Create(_, env) =>
      CreateKeepsInv(s, cfg, env, true);
      CreateExtends(s, cfg, env, true);
    case Deploy(req, env) =>
      NodeDeployAtomic(s, cfg, req, env);
      var n := BeaconCount(req.role);
      BeaconsPart(s, cfg, req, env, n);
      var (s1, ok) := DeployBeacons(s, cfg, req, env, 0, n);
      if ok && req.role.ValidatorRole? {
        DeployValidatorExtends(s1, cfg, req, env, if n > 0 then Some(s1.nodes[|s.nodes|]) else None, n);
      }
  }

  lemma ExtendsTransitive(a: State, b: State, c: State)
    requires Extends(a, b) && Extends(b, c)
    ensures Extends(a, c)
  {
  }

  /** Along every run the invariant holds and everything earlier is kept: tranche indices are never reused, accounts
      never change, and a tranche changes its owner at most once. */
  lemma {:induction false} RunExtends(s: State, cfg: Config, run: seq<Event>)
    requires Inv(s, cfg) && PossibleRun(s, cfg, run)
    ensures Inv(After(s, cfg, run), cfg) && Extends(s, After(s, cfg, run))
    decreases |run|
  {
    if run != [] {
      var s1 := Step(s, cfg, run[0]);
      StepExtends(s, cfg, run[0]);
      RunExtends(s1, cfg, run[1..]);
      ExtendsTransitive(s, s1, After(s, cfg, run));
    }
  }

  lemma TraceStart(cfg: Config, env: StartEnv, states: seq<State>, run: seq<Event>)
    requires Trace(cfg, env, states, run)
    ensures Inv(states[0], cfg) && GenesisSoFar(states[0], cfg, env.accounts, |env.accounts|)
  {
    assert Justified(cfg, env, states, run, 0);
    StartInv(cfg, env);
  }

  lemma TraceStep(cfg: Config, env: StartEnv, states: seq<State>, run: seq<Event>, i: nat)
    requires Trace(cfg, env, states, run) && i < |run|
    ensures Possible(states[i], run[i]) && Step(states[i], cfg, run[i]) == states[i + 1]
  {
    assert Justified(cfg, env, states, run, i + 1);
  }

  lemma TraceNext(cfg: Config, env: StartEnv, states: seq<State>, run: seq<Event>, i: nat)
    requires Trace(cfg, env, states, run) && i < |run| && Inv(states[i], cfg)
    ensures Inv(states[i + 1], cfg) && Extends(states[i], states[i + 1])
  {
    TraceStep(cfg, env, states, run, i);
    StepExtends(states[i], cfg, run[i]);
  }

  lemma {:induction false} TraceInv(cfg: Config, env: StartEnv, states: seq<State>, run: seq<Event>, i: nat)
    requires Trace(cfg, env, states, run) && i <= |run|
    ensures Inv(states[i], cfg) && Extends(states[0], states[i])
  {
    if i == 0 {
      TraceStart(cfg, env, states, run);
    } else {
      TraceInv(cfg, env, states, run, i - 1);
      TraceNext(cfg, env, states, run, i - 1);
      ExtendsTransitive(states[0], states[i - 1], states[i]);
    }
  }

  lemma ReachableInv(s: State, cfg: Config)
    requires Reachable(s, cfg)
    ensures Inv(s, cfg)
  {
    var env: StartEnv, states: seq<State>, run: seq<Event> :| Trace(cfg, env, states, run) && states[|run|] == s;
    TraceInv(cfg, env, states, run, |run|);
  }

  /** The states that a run passes through. */
  function Visited(s: State, cfg: Config, run: seq<Event>): (states: seq<State>)
    ensures |states| == |run| + 1 && states[0] == s && states[|run|] == After(s, cfg, run)
    decreases |run|
  {
    if run == [] then [s] else [s] + Visited(Step(s, cfg, run[0]), cfg, run[1..])
  }

  lemma {:induction false} VisitedSteps(s: State, cfg: Config, run: seq<Event>, i: nat)
    requires PossibleRun(s, cfg, run) && i < |run|
    ensures var states := Visited(s, cfg, run);
            Possible(states[i], run[i]) && Step(states[i], cfg, run[i]) == states[i + 1]
    decreases |run|
  {
    if i > 0 {
      VisitedSteps(Step(s, cfg, run[0]), cfg, run[1..], i - 1);
    }
  }

  /** What the server object goes through when it serves requests is reachable. */
  lemma RunIsReachable(cfg: Config, env: StartEnv, run: seq<Event>)
    requires StartFresh(env.accounts) && Start(cfg, env).Some? && PossibleRun(Start(cfg, env).value, cfg, run)
    ensures Reachable(After(Start(cfg, env).value, cfg, run), cfg)
  {
    var s := Start(cfg, env).value;
    var states := Visited(s, cfg, run);
    forall i | 0 <= i <= |run|
      ensures Justified(cfg, env, states, run, i)
    {
      if i > 0 {
        VisitedSteps(s, cfg, run, i - 1);
      }
    }
    assert Trace(cfg, env, states, run);
  }

  /** And every reachable state comes from such requests. */
  lemma {:induction false} TraceIsRun(cfg: Config, env: StartEnv, states: seq<State>, run: seq<Event>, i: nat)
    requires Trace(cfg, env, states, run) && i <= |run|
    ensures PossibleRun(states[i], cfg, run[i..]) && After(states[i], cfg, run[i..]) == states[|run|]
    decreases |run| - i
  {
    if i < |run| {
      TraceStep(cfg, env, states, run, i);
      assert run[i..][0] == run[i] && run[i..][1..] == run[i + 1..];
      TraceIsRun(cfg, env, states, run, i + 1);
    }
  }

  // ---------- one tranche, one validator ----------

  predicate OwnerPair(s: State, i: nat, k: nat) {
    && i < |s.nodes| && HasType(s.nodes[i], VALIDATOR)
    && k in s.tranches && IsConsumed(s.tranches[k]) && s.tranches[k].validator == s.nodes[i].spec.name
  }

  /** Consumed tranches and registered validator nodes are in bijection by the recorded name. */
  lemma ConsumedTranchesAreOwned(s: State, cfg: Config)
    requires Reachable(s, cfg)
    ensures forall k :: k in s.tranches && IsConsumed(s.tranches[k]) ==> exists i :: OwnerPair(s, i, k)
    ensures forall i :: 0 <= i < |s.nodes| && HasType(s.nodes[i], VALIDATOR) ==> exists k :: OwnerPair(s, i, k)
    ensures forall i, j, k :: OwnerPair(s, i, k) && OwnerPair(s, j, k) ==> i == j
    ensures forall i, k, l :: OwnerPair(s, i, k) && OwnerPair(s, i, l) ==> k == l
  {
    ReachableInv(s, cfg);
    forall k | k in s.tranches && IsConsumed(s.tranches[k])
      ensures exists i :: OwnerPair(s, i, k)
    {
      assert HasOwner(s.nodes, s.tranches[k]);
      var i :| 0 <= i < |s.nodes| && Owns(s.nodes[i], s.tranches[k]);
      assert OwnerPair(s, i, k);
    }
    forall i | 0 <= i < |s.nodes| && HasType(s.nodes[i], VALIDATOR)
      ensures exists k :: OwnerPair(s, i, k)
    {
      var k := TrancheOf(s, cfg, i);
      assert OwnerPair(s, i, k);
    }
    forall i, j, k | OwnerPair(s, i, k) && OwnerPair(s, j, k)
      ensures i == j
    {
      if i < j {
        NamesDistinct(s.nodes, i, j);
      } else if j < i {
        NamesDistinct(s.nodes, j, i);
      }
    }
  }

  /** The tranche a registered validator owns; its container runs exactly the tranche's keys. */
  lemma TrancheOf(s: State, cfg: Config, i: nat) returns (k: nat)
    requires Inv(s, cfg) && i < |s.nodes| && HasType(s.nodes[i], VALIDATOR)
    ensures OwnerPair(s, i, k)
    ensures LoadedKeys(ClientOf(s.nodes[i]), s.nodes[i].spec) == BlsKeys(s.tranches[k].accounts)
  {
    assert HasTranche(s.tranches, s.nodes[i]);
    k :| k in s.tranches && Owns(s.nodes[i], s.tranches[k]);
    NodeKind(s.nodes, i);
    NamePrefixes(CountType(s.nodes[..i], VALIDATOR), ClientOf(s.nodes[i]));
  }

  /** No validator key is run by two registered nodes. */
  lemma NoKeyRunTwice(s: State, cfg: Config, i: nat, j: nat, a: BlsKey, b: BlsKey)
    requires Reachable(s, cfg)
    requires i < |s.nodes| && j < |s.nodes| && i != j
    requires HasType(s.nodes[i], VALIDATOR) && HasType(s.nodes[j], VALIDATOR)
    requires a in LoadedKeys(ClientOf(s.nodes[i]), s.nodes[i].spec)
    requires b in LoadedKeys(ClientOf(s.nodes[j]), s.nodes[j].spec)
    ensures a.pub != b.pub
  {
    ReachableInv(s, cfg);
    var k := TrancheOf(s, cfg, i);
    var l := TrancheOf(s, cfg, j);
    if i < j {
      NamesDistinct(s.nodes, i, j);
    } else {
      NamesDistinct(s.nodes, j, i);
    }
    assert k != l;
    assert a.pub in PubKeys(s.tranches[k].accounts) && b.pub in PubKeys(s.tranches[l].accounts);
  }

  /** Nor by the containers of two registered nodes, whatever the order in which their files were placed. */
  lemma NoKeySeenTwice(s: State, cfg: Config, i: nat, j: nat, seenI: map<string, Content>, seenJ: map<string, Content>,
                       a: BlsKey, b: BlsKey)
    requires Reachable(s, cfg)
    requires i < |s.nodes| && j < |s.nodes| && i != j
    requires HasType(s.nodes[i], VALIDATOR) && HasType(s.nodes[j], VALIDATOR)
    requires Deployment.Shows(s.nodes[i].spec, seenI) && Deployment.Shows(s.nodes[j].spec, seenJ)
    requires a in LoadedKeys(ClientOf(s.nodes[i]), s.nodes[i].spec.(files := seenI))
    requires b in LoadedKeys(ClientOf(s.nodes[j]), s.nodes[j].spec.(files := seenJ))
    ensures a.pub != b.pub
  {
    ValidatorSees(s, cfg, i, seenI);
    ValidatorSees(s, cfg, j, seenJ);
    NoKeyRunTwice(s, cfg, i, j, a, b);
  }

  lemma ValidatorSees(s: State, cfg: Config, i: nat, seen: map<string, Content>)
    requires Reachable(s, cfg) && i < |s.nodes| && HasType(s.nodes[i], VALIDATOR)
    requires Deployment.Shows(s.nodes[i].spec, seen)
    ensures seen == s.nodes[i].spec.files
  {
    ReachableInv(s, cfg);
    NodeKind(s.nodes, i);
    Deployment.ShownFiles(s.nodes[i].spec, seen);
  }

  /** Names are unique; the k-th registered beacon or validator carries its number, and none is named like a system
      node. */
  lemma NamesNumbered(s: State, cfg: Config, i: nat)
    requires Reachable(s, cfg) && i < |s.nodes|
    ensures forall j :: 0 <= j < |s.nodes| && s.nodes[j].spec.name == s.nodes[i].spec.name ==> j == i
    ensures HasType(s.nodes[i], BEACON) ==>
              s.nodes[i].spec.name == BeaconName(CountType(s.nodes[..i], BEACON), ClientOf(s.nodes[i]))
    ensures HasType(s.nodes[i], VALIDATOR) ==>
              s.nodes[i].spec.name == ValidatorName(CountType(s.nodes[..i], VALIDATOR), ClientOf(s.nodes[i]))
    ensures s.nodes[i].spec.name in {"bootnode", "bootnode-v4", "eth1"} <==> i < SYSTEM_NODES
  {
    ReachableInv(s, cfg);
    NodeKind(s.nodes, i);
    forall j | 0 <= j < |s.nodes| && j != i
      ensures s.nodes[j].spec.name != s.nodes[i].spec.name
    {
      if i < j {
        NamesDistinct(s.nodes, i, j);
      } else {
        NamesDistinct(s.nodes, j, i);
      }
    }
    if i >= SYSTEM_NODES {
      assert s.nodes[0].spec.name == "bootnode" && s.nodes[1].spec.name == "bootnode-v4" && s.nodes[2].spec.name == "eth1";
    }
  }

  /** Every registered validator talks to a beacon node of its own client registered before it. */
  lemma ValidatorsHaveBeacons(s: State, cfg: Config, i: nat)
    requires Reachable(s, cfg) && i < |s.nodes| && HasType(s.nodes[i], VALIDATOR)
    ensures exists j :: 0 <= j < i && Serves(s.nodes[j], s.nodes[i])
  {
    ReachableInv(s, cfg);
    NodeKind(s.nodes, i);
    assert i >= SYSTEM_NODES;
    assert NodeAt(s.nodes, i);
    assert BEACON != VALIDATOR;
  }

  /** Tranches are numbered densely, and no two share a file or an account. */
  lemma TranchesSeparate(s: State, cfg: Config)
    requires Reachable(s, cfg)
    ensures forall k: nat :: k in s.tranches <==> k < |s.tranches|
    ensures forall k, l :: k in s.tranches && l in s.tranches && k != l ==>
              s.tranches[k].filepath != s.tranches[l].filepath
    ensures forall k, l :: k in s.tranches && l in s.tranches && k != l ==>
              PubKeys(s.tranches[k].accounts) !! PubKeys(s.tranches[l].accounts)
  {
    ReachableInv(s, cfg);
    forall k, l | k in s.tranches && l in s.tranches && k != l
      ensures s.tranches[k].filepath != s.tranches[l].filepath
    {
      assert TrancheOk(s.tranches[k], k, s.issued, cfg) && TrancheOk(s.tranches[l], l, s.issued, cfg);
      if s.tranches[k].filepath == s.tranches[l].filepath {
        TranchePathInjective(cfg.dir, k, l);
      }
    }
  }
}
