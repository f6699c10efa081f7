/** The server: it appends to its node list, fills its tranche map, and consumes tranches by writing their validator
    field. Every method is proved against the control plane on values. */
module Server {
  import opened GoIntegers
  import opened Wrappers
  import opened Text
  import opened Keys
  import opened ContainerSpec
  import opened Components
  import opened ControlPlane
  import opened ControlPlaneProofs
  import opened ControlPlaneRuns
  import opened ControlPlaneTheorems
  import Genesis

  class Tranche {
    const accounts: seq<Account>
    const filepath: string
    var validator: string

    constructor (accounts: seq<Account>, filepath: string)
      ensures Data() == TrancheData(accounts, filepath, "")
    {
      this.accounts, this.filepath, validator := accounts, filepath, "";
    }

    function Data(): TrancheData
      reads this
    {
      TrancheData(accounts, filepath, validator)
    }
  }

  /** A deployed container refers to the description it was deployed from. */
  datatype Node = Node(opts: Spec, ip: string)

  function DataOf(n: Node): NodeData
    reads n.opts
  {
    NodeData(n.opts.Data(), n.ip)
  }

  // ---------- stubs ----------

  datatype NodeType = OtherType | BeaconType | ValidatorType | BootnodeType

  datatype NodeStub = NodeStub(name: string, kind: NodeType, client: NodeClient, ip: string, labels: map<string, string>)

  function StringToNodeType(s: string): Option<NodeType> {
    var t := Title(s);
    if t == "OtherType" then Some(OtherType)
    else if t == "Beacon" then Some(BeaconType)
    else if t == "Validator" then Some(ValidatorType)
    else if t == "Bootnode" then Some(BootnodeType)
    else None
  }

  function StringToNodeClient(s: string): Option<NodeClient> {
    var t := Title(s);
    if t == "OtherClient" then Some(OtherClient)
    else if t == "Prysm" then Some(Prysm)
    else if t == "Teku" then Some(Teku)
    else if t == "Lighthouse" then Some(Lighthouse)
    else None
  }

  /** specNodeToNode. */
  function Stub(n: NodeData): NodeStub {
    var typ := StringToNodeType(Label(n.spec.labels, TYPE_LABEL));
    var client := StringToNodeClient(Label(n.spec.labels, CLIENT_LABEL));
    NodeStub(n.spec.name, if typ.Some? then typ.value else OtherType, if client.Some? then client.value else OtherClient,
             n.ip, n.spec.labels)
  }

  /** The stub carries the node's name, address and labels. */
  predicate Shows(stub: NodeStub, n: NodeData) {
    stub.name == n.spec.name && stub.ip == n.ip && stub.labels == n.spec.labels
  }

  function Stubs(nodes: seq<NodeData>): seq<NodeStub> {
    seq(|nodes|, i requires 0 <= i < |nodes| => Stub(nodes[i]))
  }

  /** Both halves of a key in hex. */
  datatype AccountStub = AccountStub(privKey: string, pubKey: string)

  /** index is that of the tranche in the map. */
  datatype TrancheStub = TrancheStub(index: nat, accounts: seq<AccountStub>, name: string, path: string)

  /** Decoding the listed account gives back its key. */
  predicate ReadsBack(stub: AccountStub, key: BlsKey) {
    key.prv.Some? && HexDecode(stub.privKey) == Some(key.prv.value) && HexDecode(stub.pubKey) == Some(key.pub)
  }

  /** The stub shows owner and file of the tranche, and its keys in order. */
  predicate ShowsTranche(stub: TrancheStub, t: TrancheData) {
    && stub.name == t.validator && stub.path == t.filepath && |stub.accounts| == |t.accounts|
    && forall i :: 0 <= i < |t.accounts| ==> ReadsBack(stub.accounts[i], t.accounts[i].bls)
  }

  function StubOfTranche(index: nat, t: TrancheData): TrancheStub
    requires AllMarshal(t.accounts)
  {
    TrancheStub(index,
                seq(|t.accounts|, i requires 0 <= i < |t.accounts| =>
                  AccountStub(HexEncode(t.accounts[i].bls.prv.value), HexEncode(t.accounts[i].bls.pub))),
                t.validator, t.filepath)
  }

  lemma StubReadsBack(index: nat, t: TrancheData)
    requires AllMarshal(t.accounts)
    ensures ShowsTranche(StubOfTranche(index, t), t)
  {
    var stub := StubOfTranche(index, t);
    forall i | 0 <= i < |t.accounts|
      ensures ReadsBack(stub.accounts[i], t.accounts[i].bls)
    {
      HexRoundTrip(t.accounts[i].bls.prv.value);
      HexRoundTrip(t.accounts[i].bls.pub);
    }
  }

  /** The response shows this tranche under index 0. */
  ghost predicate AnswersWith(stub: TrancheStub, tranches: map<nat, TrancheData>, n: nat) {
    && n in tranches && AllMarshal(tranches[n].accounts) && stub == StubOfTranche(0, tranches[n])
    && stub.index == 0 && ShowsTranche(stub, tranches[n])
  }

  lemma TrancheAnswers(stub: TrancheStub, tranches: map<nat, TrancheData>, n: nat, t: TrancheData)
    requires n in tranches && tranches[n] == t && AllMarshal(t.accounts) && stub == StubOfTranche(0, t)
    ensures AnswersWith(stub, tranches, n)
  {
    StubReadsBack(0, t);
  }

  /** Each of these tranches is listed once, under its own index. */
  ghost predicate Lists(stubs: seq<TrancheStub>, tranches: map<nat, TrancheData>, keys: set<nat>) {
    && (forall i :: 0 <= i < |stubs| ==>
          && stubs[i].index in keys && stubs[i].index in tranches && AllMarshal(tranches[stubs[i].index].accounts)
          && stubs[i] == StubOfTranche(stubs[i].index, tranches[stubs[i].index])
          && ShowsTranche(stubs[i], tranches[stubs[i].index]))
    && (forall i, j :: 0 <= i < j < |stubs| ==> stubs[i].index != stubs[j].index)
    && (forall k {:trigger HasStub(stubs, k)} :: k in keys ==> HasStub(stubs, k))
  }

  predicate HasStub(stubs: seq<TrancheStub>, index: nat) {
    exists i :: 0 <= i < |stubs| && stubs[i].index == index
  }

  lemma ListsOneMore(stubs: seq<TrancheStub>, tranches: map<nat, TrancheData>, keys: set<nat>, index: nat)
    requires Lists(stubs, tranches, keys) && index in tranches && index !in keys && AllMarshal(tranches[index].accounts)
    ensures Lists(stubs + [StubOfTranche(index, tranches[index])], tranches, keys + {index})
  {
    var more := stubs + [StubOfTranche(index, tranches[index])];
    StubReadsBack(index, tranches[index]);
    assert more[|stubs|].index == index;
    forall k | k in keys
      ensures HasStub(more, k)
    {
      assert HasStub(stubs, k);
      var i :| 0 <= i < |stubs| && stubs[i].index == k;
      assert more[i].index == k;
    }
  }

  const ALTAIR_FORK_VERSION: Bytes := [0x80, 0, 0, 0x70]
  const NO_FORK_VERSION: Bytes := [0, 0, 0, 0]

  /** The input of the genesis state: all tranche accounts, with the Altair fork if it is enabled at epoch 0. */
  function GenesisInput(accounts: seq<Account>, altairAtGenesis: bool, genesisTime: int, block: Genesis.Block): Genesis.Input {
    Genesis.Input(block, genesisTime, accounts,
                  if altairAtGenesis then Genesis.Altair else Genesis.Phase0,
                  if altairAtGenesis then ALTAIR_FORK_VERSION else NO_FORK_VERSION)
  }

  /** What the genesis state takes from the configuration and the latest block of the execution chain. */
  predicate StartsFrom(state: Genesis.BeaconState, altairAtGenesis: bool, genesisTime: int, block: Genesis.Block) {
    && (if altairAtGenesis then state.fork == Genesis.Altair && state.forkVersion == [0x80, 0x0, 0x0, 0x70]
        else state.fork == Genesis.Phase0 && state.forkVersion == [0, 0, 0, 0])
    && state.genesisTime == ToUint64(genesisTime) && state.blockHash == block.hash
    && state.genesisTime >= block.timestamp
  }

  // ---------- counting and picking ----------

  predicate IsBeaconOf(n: NodeData, c: NodeClient) {
    HasType(n, BEACON) && HasClient(n, c)
  }

  lemma {:induction false} PickFirst(nodes: seq<NodeData>, c: NodeClient, first: nat)
    requires first <= |nodes| && (forall k :: 0 <= k < first ==> !IsBeaconOf(nodes[k], c))
    requires first < |nodes| ==> IsBeaconOf(nodes[first], c)
    ensures PickBeacon(nodes, c) == if first < |nodes| then Some(nodes[first]) else None
  {
    if first > 0 {
      PickFirst(nodes[1..], c, first - 1);
    }
  }

  class Server {
    const config: Config
    var nodes: seq<Node>
    var tranches: map<nat, Tranche>
    ghost var issued: set<Bytes>

    /** No two indices share a tranche object. */
    ghost predicate Valid()
      reads this`tranches
    {
      forall k, l :: k in tranches && l in tranches && k != l ==> tranches[k] != tranches[l]
    }

    ghost function Specs(): set<Spec>
      reads this`nodes
    {
      set i | 0 <= i < |nodes| :: nodes[i].opts
    }

    ghost function NodesView(): (v: seq<NodeData>)
      reads this`nodes, Specs()
      ensures |v| == |nodes| && forall i :: 0 <= i < |nodes| ==> v[i] == DataOf(nodes[i])
    {
      var ns, specs := nodes, Specs();
      seq(|ns|, i requires 0 <= i < |ns| && ns[i].opts in specs reads specs => DataOf(ns[i]))
    }

    ghost function TranchesView(): (v: map<nat, TrancheData>)
      reads this`tranches, tranches.Values
      ensures v.Keys == tranches.Keys && |v| == |tranches|
    {
      var v := map k | k in tranches :: tranches[k].Data();
      assert v.Keys == tranches.Keys;
      v
    }

    ghost function View(): State
      reads this`nodes, this`tranches, this`issued, Specs(), tranches.Values
    {
      State(NodesView(), TranchesView(), issued)
    }

    constructor (config: Config)
      ensures Valid() && this.config == config && nodes == [] && tranches == map[] && issued == {}
      ensures View() == State([], map[], {})
    {
      this.config := config;
      nodes, tranches, issued := [], map[], {};
      new;
      assert NodesView() == [] && TranchesView() == map[];
    }

    /** docker.Deploy after the log file is open: the two common labels, the default tag, and the container. */
    method Launch(spec: Spec, logOk: bool, dockerOk: bool) returns (ok: bool)
      modifies spec
      ensures ok <==> logOk && dockerOk
      ensures ok ==> spec.Data() == Launched(config, old(spec.Data()))
    {
      if !logOk {
        return false;
      }
      spec.WithLabel("viewpoint", "true");
      spec.WithLabel("env", config.name);
      if spec.tag == "" {
        spec.WithTag("latest");
      }
      return dockerOk;
    }

    /** Deploys a container and registers it. */
    method DeployNode(spec: Spec, logOk: bool, dockerOk: bool, ip: string) returns (r: Option<Node>)
      requires spec !in Specs()
      modifies this`nodes, spec
      ensures r == if logOk && dockerOk then Some(Node(spec, ip)) else None
      ensures nodes == old(nodes) + if r.Some? then [Node(spec, ip)] else []
      ensures r.Some? ==> spec.Data() == Launched(config, old(spec.Data()))
      ensures r.Some? ==> NodesView() == old(NodesView()) + [NodeData(Launched(config, old(spec.Data())), ip)]
      ensures r.None? ==> NodesView() == old(NodesView())
    {
      var ok := Launch(spec, logOk, dockerOk);
      assert NodesView() == old(NodesView());
      if !ok {
        return None;
      }
      nodes := nodes + [Node(spec, ip)];
      return Some(Node(spec, ip));
    }

    method NumOfNodes(typ: string) returns (n: nat)
      ensures n == CountType(NodesView(), typ)
    {
      n := 0;
      ghost var data := NodesView();
      for i := 0 to |nodes|
        invariant n == CountType(data[..i], typ)
      {
        assert data[..i + 1][..i] == data[..i];
        if nodes[i].opts.HasLabel(TYPE_LABEL, typ) {
          n := n + 1;
        }
      }
      assert data[..|nodes|] == data;
    }

    predicate IsBeaconNode(n: Node, c: NodeClient): (b: bool)
      reads n.opts
      ensures b == IsBeaconOf(DataOf(n), c)
    {
      n.opts.HasLabel(TYPE_LABEL, BEACON) && n.opts.HasLabel(CLIENT_LABEL, ClientName(c))
    }

    /** The registered beacon nodes of a client, in order. */
    method BeaconsOf(c: NodeClient) returns (res: seq<Node>)
      ensures PickBeacon(NodesView(), c) == if res == [] then None else Some(DataOf(res[0]))
      ensures forall j :: 0 <= j < |res| ==> res[j] in nodes && IsBeaconNode(res[j], c)
      ensures forall i :: 0 <= i < |nodes| && IsBeaconNode(nodes[i], c) ==> nodes[i] in res
    {
      res := [];
      ghost var first := 0;
      for i := 0 to |nodes|
        invariant forall j :: 0 <= j < |res| ==> res[j] in nodes && IsBeaconNode(res[j], c)
        invariant forall k :: 0 <= k < i && IsBeaconNode(nodes[k], c) ==> nodes[k] in res
        invariant res != [] ==> first < i && res[0] == nodes[first]
        invariant forall k :: 0 <= k < (if res == [] then i else first) ==> !IsBeaconNode(nodes[k], c)
      {
        if IsBeaconNode(nodes[i], c) {
          first := if res == [] then i else first;
          res := res + [nodes[i]];
        }
      }
      PickFirst(NodesView(), c, if res == [] then |nodes| else first);
    }

    // ---------- tranches ----------

    /** The private keys as they are written to the tranche file; fails at the first key that does not marshal. */
    method PrivateKeys(accounts: seq<Account>) returns (r: Option<seq<string>>)
      ensures r.Some? <==> AllMarshal(accounts)
      ensures r.Some? ==> |r.value| == |accounts|
      ensures r.Some? ==> forall i :: 0 <= i < |accounts| ==> r.value[i] == HexEncode(accounts[i].bls.prv.value)
    {
      var privKeys: seq<string> := [];
      for i := 0 to |accounts|
        invariant AllMarshal(accounts[..i]) && |privKeys| == i
        invariant forall j :: 0 <= j < i ==> accounts[j].bls.prv.Some? && privKeys[j] == HexEncode(accounts[j].bls.prv.value)
      {
        var priv := accounts[i].bls.prv;
        if priv.None? {
          return None;
        }
        privKeys := privKeys + [HexEncode(priv.value)];
      }
      return Some(privKeys);
    }

    method AddTranche(tranche: Tranche)
      requires Valid() && tranche !in tranches.Values
      modifies this`tranches
      ensures Valid()
      ensures tranches == old(tranches)[|old(tranches)| := tranche]
      ensures TranchesView() == old(TranchesView())[|old(tranches)| := tranche.Data()]
    {
      var numTranches := |tranches|;
      tranches := tranches[numTranches := tranche];
    }

    /** Generates the accounts, funds and marshals them, and writes the tranche file. */
    method PrepareAccounts(env: Env, deposit: bool) returns (ok: bool)
      modifies this`issued
      ensures ok <==> (deposit ==> env.depositsOk) && AllMarshal(env.accounts) && env.writeOk
      ensures issued == old(issued) + PubKeys(env.accounts)
    {
      issued := issued + PubKeys(env.accounts);
      if deposit && !env.depositsOk {
        return false;
      }
      var privKeys := PrivateKeys(env.accounts);
      return privKeys.Some? && env.writeOk;
    }

    /** The tranche gets the next index once its accounts are funded, marshalled and written. */
    method CreateTranche(env: Env, deposit: bool) returns (r: Option<Tranche>)
      requires Valid()
      modifies this`tranches, this`issued
      ensures Valid()
      ensures r.Some? <==> (deposit ==> env.depositsOk) && AllMarshal(env.accounts) && env.writeOk
      ensures r.Some? ==> fresh(r.value) && tranches == old(tranches)[|old(tranches)| := r.value]
      ensures r.Some? ==> r.value.accounts == env.accounts
      ensures r.None? ==> tranches == old(tranches)
      ensures View() == ControlPlane.CreateTranche(old(View()), config, env, deposit).0
    {
      ghost var before := View();
      var ok := PrepareAccounts(env, deposit);
      assert NodesView() == before.nodes && TranchesView() == before.tranches;
      if !ok {
        return None;
      }
      r := NewTranche(env.accounts);
      assert NodesView() == before.nodes;
    }

    method NewTranche(accounts: seq<Account>) returns (r: Option<Tranche>)
      requires Valid()
      modifies this`tranches
      ensures Valid()
      ensures r.Some? && fresh(r.value) && tranches == old(tranches)[|old(tranches)| := r.value]
      ensures r.value.accounts == accounts
      ensures TranchesView() == old(TranchesView())[|old(tranches)| :=
                                  TrancheData(accounts, TranchePath(config.dir, |old(tranches)|), "")]
    {
      var tranche := new Tranche(accounts, TranchePath(config.dir, |tranches|));
      assert TranchesView() == old(TranchesView());
      AddTranche(tranche);
      return Some(tranche);
    }

    /** The request without its response. */
    method CreateWithDeposit(env: Env) returns (r: Option<Tranche>)
      requires Valid()
      modifies this`tranches, this`issued
      ensures Valid()
      ensures fresh(tranches.Values - old(tranches.Values))
      ensures View() == ControlPlane.DepositCreate(old(View()), config, env).0
      ensures r.Some? <==> ControlPlane.DepositCreate(old(View()), config, env).1
      ensures r.Some? ==> |old(tranches)| in tranches && tranches[|old(tranches)|] == r.value
      ensures r.Some? ==> AllMarshal(r.value.accounts)
    {
      r := CreateTranche(env, true);
    }

    /** The response shows the new tranche, but the program never sets its index there, so it is always 0. */
    method DepositCreate(env: Env) returns (r: Option<TrancheStub>)
      requires Valid()
      modifies this`tranches, this`issued
      ensures Valid()
      ensures fresh(tranches.Values - old(tranches.Values))
      ensures View() == ControlPlane.DepositCreate(old(View()), config, env).0
      ensures r.Some? <==> ControlPlane.DepositCreate(old(View()), config, env).1
      ensures r.Some? ==> AnswersWith(r.value, TranchesView(), |old(tranches)|)
    {
      ghost var n := |tranches|;
      var tranche := CreateWithDeposit(env);
      r := Respond(tranche, n);
    }

    method Respond(tranche: Option<Tranche>, ghost n: nat) returns (r: Option<TrancheStub>)
      requires tranche.Some? ==> n in tranches && tranches[n] == tranche.value && AllMarshal(tranche.value.accounts)
      ensures r.Some? <==> tranche.Some?
      ensures r.Some? ==> AnswersWith(r.value, TranchesView(), n)
    {
      r := None;
      if tranche.Some? {
        r := ToStub(0, tranche.value);
        TrancheAnswers(r.value, TranchesView(), n, tranche.value.Data());
      }
    }

    /** Adds the stub of one more tranche to the listing. */
    method ListOne(res: seq<TrancheStub>, ghost done: set<nat>, index: nat) returns (r: Option<seq<TrancheStub>>)
      requires index in tranches && index !in done && Lists(res, TranchesView(), done)
      ensures r.Some? <==> AllMarshal(TranchesView()[index].accounts)
      ensures r.Some? ==> Lists(r.value, TranchesView(), done + {index})
    {
      var stub := ToStub(index, tranches[index]);
      if stub.None? {
        return None;
      }
      ListsOneMore(res, TranchesView(), done, index);
      return Some(res + [stub.value]);
    }

    /** Lists the tranches in whatever order the map yields them. */
    method DepositList() returns (r: Option<seq<TrancheStub>>)
      ensures r.Some? <==> forall k :: k in tranches ==> AllMarshal(TranchesView()[k].accounts)
      ensures r.Some? ==> Lists(r.value, TranchesView(), tranches.Keys)
    {
      var todo := tranches.Keys;
      ghost var done, data := {}, TranchesView();
      r := Some([]);
      while todo != {}
        invariant done == tranches.Keys - todo && todo <= tranches.Keys
        invariant forall k :: k in done ==> AllMarshal(data[k].accounts)
        invariant r.Some? && Lists(r.value, data, done)
        decreases todo
      {
        var index :| index in todo;
        r := ListOne(r.value, done, index);
        if r.None? {
          return;
        }
        todo, done := todo - {index}, done + {index};
      }
    }

    // ---------- start-up ----------

    /** The bootnodes and the execution node. */
    method DeploySystem(env: StartEnv) returns (ok: bool)
      requires Valid() && nodes == []
      modifies this`nodes
      ensures ok <==> forall k :: 0 <= k < 3 ==> env.logOk(k) && env.dockerOk(k)
      ensures ok ==> NodesView() == SystemNodes(config, env)
    {
      for k := 0 to 3
        invariant |nodes| == k && NodesView() == SystemNodes(config, env)[..k]
        invariant forall j :: 0 <= j < k ==> env.logOk(j) && env.dockerOk(j)
      {
        var spec := SystemSpec(k);
        assert NodesView() == SystemNodes(config, env)[..k];
        var node := DeployNode(spec, env.logOk(k), env.dockerOk(k), env.ip(k));
        if node.None? {
          return false;
        }
      }
      return true;
    }

    method NextGenesisTranche(env: StartEnv, i: nat) returns (r: Option<Tranche>)
      requires Valid() && i < |env.accounts|
      modifies this`tranches, this`issued
      ensures Valid()
      ensures ControlPlane.GenesisTranches(old(View()), config, env, i)
              == if r.Some? then ControlPlane.GenesisTranches(View(), config, env, i + 1) else (View(), false)
      ensures r.Some? ==> r.value.accounts == env.accounts[i]
    {
      r := CreateTranche(TrancheEnv(env, i), false);
    }

    /** Creates the genesis tranches and collects their accounts, in order. */
    method CreateGenesisTranches(env: StartEnv) returns (ok: bool, initialAccounts: seq<Account>)
      requires Valid()
      modifies this`tranches, this`issued
      ensures Valid()
      ensures (View(), ok) == ControlPlane.GenesisTranches(old(View()), config, env, 0)
      ensures ok ==> initialAccounts == Genesis.Flatten(env.accounts)
    {
      ghost var result := ControlPlane.GenesisTranches(View(), config, env, 0);
      initialAccounts := [];
      var i := 0;
      while i < |env.accounts|
        invariant 0 <= i <= |env.accounts| && Valid()
        invariant ControlPlane.GenesisTranches(View(), config, env, i) == result
        invariant initialAccounts == Genesis.Flatten(env.accounts[..i])
      {
        var tranche := NextGenesisTranche(env, i);
        if tranche.None? {
          return false, initialAccounts;
        }
        Genesis.FlattenStep(env.accounts, i);
        initialAccounts := initialAccounts + tranche.value.accounts;
        i := i + 1;
      }
      assert env.accounts[..i] == env.accounts;
      return true, initialAccounts;
    }

    /** The genesis state is built from all tranche accounts. */
    method SetupGenesis(env: StartEnv, altairAtGenesis: bool, genesisTime: int, block: Genesis.Block,
                        root: Genesis.ElementRoot, h: Genesis.Hash, lengthChunk: nat -> Genesis.Chunk)
      returns (r: Option<Genesis.BeaconState>)
      requires Valid()
      modifies this`tranches, this`issued
      ensures Valid()
      ensures r.Some? ==> Genesis.WellFormed(r.value, Genesis.Flatten(env.accounts), root, h, lengthChunk)
      ensures r.Some? ==> StartsFrom(r.value, altairAtGenesis, genesisTime, block)
      ensures r.Some? ==> View() == ControlPlane.GenesisTranches(old(View()), config, env, 0).0
      ensures r.Some? <==> ControlPlane.GenesisTranches(old(View()), config, env, 0).1 && env.genesisOk
                           && Genesis.Generates(GenesisInput(Genesis.Flatten(env.accounts), altairAtGenesis, genesisTime, block), root)
    {
      ghost var result := ControlPlane.GenesisTranches(View(), config, env, 0);
      var ok, initialAccounts := CreateGenesisTranches(env);
      assert View() == result.0 && ok == result.1;
      r := None;
      if ok && env.genesisOk {
        r := BuildGenesis(GenesisInput(initialAccounts, altairAtGenesis, genesisTime, block), root, h, lengthChunk);
      }
    }

    // ---------- nodes ----------

    method NodeList() returns (stubs: seq<NodeStub>)
      ensures stubs == Stubs(View().nodes)
      ensures |stubs| == |nodes| && forall i :: 0 <= i < |nodes| ==> Shows(stubs[i], View().nodes[i])
    {
      stubs := [];
      for i := 0 to |nodes|
        invariant stubs == Stubs(View().nodes[..i])
      {
        stubs := stubs + [Stub(DataOf(nodes[i]))];
      }
      assert View().nodes[..|nodes|] == View().nodes;
    }

    /** The last registered node of that name, or an error for the empty name; the source dereferences nil when there is
        no node of the name. */
    method NodeStatus(name: string) returns (stub: Option<NodeStub>)
      requires name != "" ==> exists i :: 0 <= i < |nodes| && nodes[i].opts.name == name
      ensures stub.None? <==> name == ""
      ensures stub.Some? ==>
                exists i :: 0 <= i < |nodes| && View().nodes[i].spec.name == name && stub.value == Stub(View().nodes[i])
                            && forall j :: i < j < |nodes| ==> View().nodes[j].spec.name != name
      ensures stub.Some? ==> stub.value.name == name && exists n :: n in View().nodes && Shows(stub.value, n)
    {
      if name == "" {
        return None;
      }
      var target: Option<nat> := None;
      for i := 0 to |nodes|
        invariant target.None? ==> forall j :: 0 <= j < i ==> nodes[j].opts.name != name
        invariant target.Some? ==> target.value < i && nodes[target.value].opts.name == name
        invariant target.Some? ==> forall j :: target.value < j < i ==> nodes[j].opts.name != name
      {
        if nodes[i].opts.name == name {
          target := Some(i);
        }
      }
      assert View().nodes[target.value].spec.name == name;
      stub := Some(Stub(DataOf(nodes[target.value])));
      assert Shows(stub.value, View().nodes[target.value]);
    }

    // ---------- NodeDeploy ----------

    /** The closure deployNode: names the container, applies the overrides, deploys it as the k-th of the request. */
    method DeployRequested(name: string, spec: Spec, req: Request, env: Env, k: nat) returns (r: Option<Node>)
      requires spec !in Specs()
      modifies this`nodes, spec
      ensures r == if LaunchOk(env, k) then Some(Node(spec, env.ip(k))) else None
      ensures nodes == old(nodes) + if r.Some? then [Node(spec, env.ip(k))] else []
      ensures r.None? ==> NodesView() == old(NodesView())
      ensures r.Some? ==>
                NodesView() == old(NodesView()) + [NodeData(Prepared(config, req, name, old(spec.Data())), env.ip(k))]
    {
      spec.WithName(name);
      if req.repo != "" {
        spec.WithContainer(req.repo);
      }
      if req.tag != "" {
        spec.WithTag(req.tag);
      }
      assert NodesView() == old(NodesView());
      r := DeployNode(spec, env.logOk(k), env.dockerOk(k), env.ip(k));
    }

    /** The closure deployBeacon. */
    method DeployBeacon(req: Request, env: Env, k: nat) returns (r: Option<Node>)
      modifies this`nodes
      ensures r.Some? <==> Supported(req.client) && LaunchOk(env, k)
      ensures nodes == old(nodes) + if r.Some? then [r.value] else []
      ensures r.Some? ==> fresh(r.value.opts)
      ensures r.Some? ==>
                NodesView() == old(NodesView()) + [BeaconNode(config, req, CountType(old(NodesView()), BEACON), env.ip(k))]
      ensures r.None? ==> NodesView() == old(NodesView())
    {
      var count := NumOfNodes(BEACON);
      var name := BeaconName(count, req.client);
      if !Supported(req.client) {
        return None;
      }
      var spec := NewBeacon(req.client, BeaconConfigOf(config));
      assert NodesView() == old(NodesView());
      r := DeployRequested(name, spec, req, env, k);
    }

    /** A tranche is selected from the map, or created with its deposits. */
    method ObtainTranche(role: Role, env: Env) returns (r: Option<Tranche>)
      requires Valid() && role.ValidatorRole?
      modifies this`tranches, this`issued
      ensures Valid()
      ensures View() == ControlPlane.ObtainTranche(old(View()), config, role, env).0
      ensures r.Some? <==> ControlPlane.ObtainTranche(old(View()), config, role, env).1.Some?
      ensures r.Some? ==> var index := ControlPlane.ObtainTranche(old(View()), config, role, env).1.value;
                          index in tranches && tranches[index] == r.value
      ensures forall k :: k in tranches ==> (k in old(tranches) && tranches[k] == old(tranches)[k]) || fresh(tranches[k])
    {
      if role.numValidators != 0 {
        r := CreateTranche(env, true);
      } else if role.numTranch in tranches && tranches[role.numTranch].validator == "" {
        r := Some(tranches[role.numTranch]);
      } else {
        r := None;
      }
    }

    /** tranche.Validator = name, through the pointer that is also in the map. */
    method Consume(tranche: Tranche, ghost index: nat, name: string)
      requires Valid() && index in tranches && tranches[index] == tranche
      modifies tranche
      ensures NodesView() == old(NodesView())
      ensures TranchesView() == Take(old(TranchesView()), index, name)
    {
      tranche.validator := name;
    }

    /** Builds and deploys the validator container as the k-th of the request. */
    method LaunchValidator(req: Request, env: Env, accounts: seq<Account>, target: Node, k: nat)
      returns (r: Option<Node>, name: string)
      requires Supported(req.client) && target in nodes
      modifies this`nodes
      ensures nodes == old(nodes) + if r.Some? then [r.value] else []
      ensures r.Some? <==> KeystoresOk(req.client, |accounts|, env.keystoreOk) && LaunchOk(env, k)
      ensures r.Some? ==> fresh(r.value.opts)
      ensures r.None? ==> NodesView() == old(NodesView())
      ensures r.Some? ==>
                NodesView() == old(NodesView())
                               + [ValidatorNode(config, req, CountType(old(NodesView()), VALIDATOR), accounts,
                                                old(DataOf(target)), env.ip(k))]
      ensures name == ValidatorName(CountType(old(NodesView()), VALIDATOR), req.client)
    {
      var count := NumOfNodes(VALIDATOR);
      assert NodesView() == old(NodesView());
      name := ValidatorName(count, req.client);
      var cfg := ValidatorConfig(accounts, config.spec, DataOf(target));
      var spec := NewValidator(req.client, cfg, env.keystoreOk);
      assert NodesView() == old(NodesView());
      if spec.None? {
        return None, name;
      }
      r := DeployRequested(name, spec.value, req, env, k);
    }

    /** Launches the validator container and consumes the tranche whose accounts it runs. */
    method LaunchAndConsume(req: Request, env: Env, tranche: Tranche, ghost index: nat, target: Node, k: nat)
      returns (r: Option<Node>)
      requires Valid() && index in tranches && tranches[index] == tranche && Supported(req.client)
      requires target in nodes
      modifies this`nodes, tranche
      ensures nodes == old(nodes) + if r.Some? then [r.value] else []
      ensures r.Some? <==> KeystoresOk(req.client, |tranche.accounts|, env.keystoreOk) && LaunchOk(env, k)
      ensures r.None? ==> NodesView() == old(NodesView())
      ensures r.Some? ==>
                NodesView() == old(NodesView())
                               + [ValidatorNode(config, req, CountType(old(NodesView()), VALIDATOR), tranche.accounts,
                                                old(DataOf(target)), env.ip(k))]
      ensures TranchesView() == if r.None? then old(TranchesView()) else
                Take(old(TranchesView()), index, ValidatorName(CountType(old(NodesView()), VALIDATOR), req.client))
    {
      var name;
      r, name := LaunchValidator(req, env, tranche.accounts, target, k);
      if r.Some? {
        Consume(tranche, index, name);
      }
    }

    /** The rest of deployValidator once tranche and beacon are known. */
    method FinishValidator(req: Request, env: Env, tranche: Tranche, ghost index: nat, target: Node, k: nat)
      returns (r: Option<Node>)
      requires Valid() && index in tranches && tranches[index] == tranche && Supported(req.client)
      requires target in nodes
      modifies this`nodes, tranche
      ensures nodes == old(nodes) + if r.Some? then [r.value] else []
      ensures (View(), r.Some?) == WithTranche(old(View()), config, req, env, index, old(DataOf(target)), k)
    {
      assert TranchesView()[index].accounts == tranche.accounts;
      WithTrancheCases(View(), config, req, env, index, DataOf(target), k);
      r := LaunchAndConsume(req, env, tranche, index, target, k);
    }

    /** The given beacon, or the first registered one of the client. */
    method PickTarget(c: NodeClient, target: Option<Node>) returns (beacon: Option<Node>)
      requires target.Some? ==> target.value in nodes
      ensures target.Some? ==> beacon == target
      ensures target.None? ==> PickBeacon(NodesView(), c) == if beacon.None? then None else Some(DataOf(beacon.value))
      ensures beacon.Some? ==> beacon.value in nodes
    {
      if target.Some? {
        return target;
      }
      var beacons := BeaconsOf(c);
      beacon := if beacons == [] then None else Some(beacons[0]);
      assert PickBeacon(NodesView(), c) == if beacon.None? then None else Some(DataOf(beacon.value));
    }

    /** deployValidator once its beacon is known. */
    method DeployValidatorTo(req: Request, env: Env, beacon: Node, k: nat) returns (r: Option<Node>)
      requires Valid() && req.role.ValidatorRole? && beacon in nodes
      modifies this, tranches.Values
      ensures Valid()
      ensures nodes == old(nodes) + if r.Some? then [r.value] else []
      ensures fresh(tranches.Values - old(tranches.Values))
      ensures (View(), r.Some?) ==
              ControlPlane.DeployValidator(old(View()), config, req, env, Some(old(DataOf(beacon))), k)
    {
      ghost var before := View();
      ghost var data := DataOf(beacon);
      ghost var index := ControlPlane.ObtainTranche(before, config, req.role, env).1;
      var tranche := ObtainTranche(req.role, env);
      if tranche.None? || !Supported(req.client) {
        return None;
      }
      TrancheCases(before, config, req, env, data, k);
      assert DataOf(beacon) == data;
      r := FinishValidator(req, env, tranche.value, index.value, beacon, k);
    }

    /** The closure deployValidator. */
    method DeployValidator(req: Request, env: Env, target: Option<Node>, k: nat) returns (r: Option<Node>)
      requires Valid() && req.role.ValidatorRole? && (target.Some? ==> target.value in nodes)
      modifies this, tranches.Values
      ensures Valid()
      ensures nodes == old(nodes) + if r.Some? then [r.value] else []
      ensures fresh(tranches.Values - old(tranches.Values))
      ensures (View(), r.Some?) ==
              ControlPlane.DeployValidator(old(View()), config, req, env,
                                           if target.Some? then Some(old(DataOf(target.value))) else None, k)
    {
      ghost var before := View();
      var beacon := PickTarget(req.client, target);
      assert NodesView() == before.nodes && TranchesView() == before.tranches;
      if beacon.None? {
        return None;
      }
      ghost var data := DataOf(beacon.value);
      BeaconChosen(before, config, req, env, if target.Some? then Some(data) else None, data, k);
      r := DeployValidatorTo(req, env, beacon.value, k);
    }

    /** The i-th beacon of a request that asks for n; created lists the stubs from index first on. */
    method NextBeacon(req: Request, env: Env, i: nat, ghost n: nat, ghost first: nat, beacons: seq<NodeStub>)
      returns (ok: bool, created: seq<NodeStub>)
      requires Valid() && i < n && first <= |nodes| && beacons == Stubs(NodesView()[first..])
      modifies this`nodes
      ensures |nodes| == |old(nodes)| + if ok then 1 else 0
      ensures ControlPlane.DeployBeacons(old(View()), config, req, env, i, n)
              == if ok then ControlPlane.DeployBeacons(View(), config, req, env, i + 1, n) else (View(), false)
      ensures created == Stubs(NodesView()[first..])
    {
      ghost var s := View();
      var beacon := DeployBeacon(req, env, i);
      assert TranchesView() == s.tranches;
      ok, created := beacon.Some?, beacons;
      if ok {
        assert View() == s.(nodes := s.nodes + [BeaconNode(config, req, CountType(s.nodes, BEACON), env.ip(i))]);
        StubsAppend(s.nodes, NodesView(), first);
        created := created + [Stub(DataOf(beacon.value))];
      } else {
        assert View() == s;
      }
    }

    /** Deploys the beacons of a request, stopping at the first that fails. */
    method DeployBeacons(req: Request, env: Env, n: nat) returns (ok: bool, created: seq<NodeStub>)
      requires Valid()
      modifies this`nodes
      ensures (View(), ok) == ControlPlane.DeployBeacons(old(View()), config, req, env, 0, n)
      ensures |old(nodes)| <= |nodes| && created == Stubs(NodesView()[|old(nodes)|..])
      ensures ok ==> |nodes| == |old(nodes)| + n
    {
      ghost var first, s := |nodes|, View();
      ghost var result := ControlPlane.DeployBeacons(s, config, req, env, 0, n);
      ok, created := true, [];
      var i := 0;
      while ok && i < n
        invariant 0 <= i <= n && s == View() && first <= |nodes|
        invariant result == if ok then ControlPlane.DeployBeacons(s, config, req, env, i, n) else (s, false)
        invariant ok ==> |nodes| == first + i
        invariant created == Stubs(s.nodes[first..])
      {
        ok, created := NextBeacon(req, env, i, n, first, created);
        s := View();
        i := i + 1;
      }
      assert result == (s, ok);
    }

    /** The validator part of NodeDeploy: the first new beacon is its target, if there is one. */
    method DeployLast(req: Request, env: Env, first: nat, n: nat, beacons: seq<NodeStub>)
      returns (ok: bool, created: seq<NodeStub>)
      requires Valid() && req.role.ValidatorRole? && first <= |nodes| && (n > 0 ==> first < |nodes|)
      requires beacons == Stubs(NodesView()[first..])
      modifies this, tranches.Values
      ensures Valid() && first <= |nodes|
      ensures fresh(tranches.Values - old(tranches.Values))
      ensures (View(), ok) == ControlPlane.DeployValidator(old(View()), config, req, env,
                                                           if n > 0 then Some(old(View()).nodes[first]) else None, n)
      ensures ok ==> created == Stubs(NodesView()[first..])
    {
      var target := if n > 0 then Some(nodes[first]) else None;
      ghost var before := View();
      var validator := DeployValidator(req, env, target, n);
      ok, created := validator.Some?, beacons;
      if ok {
        created := created + [Stub(DataOf(validator.value))];
        ValidatorKeepsNodes(before, config, req, env, if n > 0 then Some(before.nodes[first]) else None, n);
        StubsAppend(before.nodes, NodesView(), first);
      }
    }

    /** What NodeDeploy does after its beacons. */
    method DeployRest(req: Request, env: Env, first: nat, n: nat, beaconsOk: bool, beacons: seq<NodeStub>)
      returns (ok: bool, created: seq<NodeStub>)
      requires Valid() && first <= |nodes| && (beaconsOk ==> |nodes| == first + n) && n == BeaconCount(req.role)
      requires beacons == Stubs(NodesView()[first..])
      modifies this, tranches.Values
      ensures Valid() && first <= |nodes|
      ensures fresh(tranches.Values - old(tranches.Values))
      ensures ok ==> created == Stubs(NodesView()[first..])
      ensures (View(), ok) == AfterBeacons(old(View()), beaconsOk, config, req, env, first)
    {
      ok, created := beaconsOk, beacons;
      if beaconsOk && req.role.ValidatorRole? {
        ok, created := DeployLast(req, env, first, n, beacons);
      }
    }

    /** NodeDeploy: the beacons, then the validator if one is requested; the response lists the nodes it added. */
    method NodeDeploy(req: Request, env: Env) returns (ok: bool, created: seq<NodeStub>)
      requires Valid()
      modifies this, tranches.Values
      ensures Valid()
      ensures fresh(tranches.Values - old(tranches.Values))
      ensures ok ==> |old(nodes)| <= |nodes| && created == Stubs(NodesView()[|old(nodes)|..])
      ensures ok ==> |nodes| == |old(nodes)| + |created|
      ensures ok ==> forall i :: 0 <= i < |created| ==> Shows(created[i], NodesView()[|old(nodes)| + i])
      ensures (View(), ok) == ControlPlane.NodeDeploy(old(View()), config, req, env)
    {
      ghost var before := View();
      var first := |nodes|;
      var n := BeaconCount(req.role);
      ok, created := DeployBeacons(req, env, n);
      NodeDeployCases(before, config, req, env, View(), ok);
      ok, created := DeployRest(req, env, first, n, ok, created);
    }
  }

  method BuildGenesis(input: Genesis.Input, root: Genesis.ElementRoot, h: Genesis.Hash, lengthChunk: nat -> Genesis.Chunk)
    returns (r: Option<Genesis.BeaconState>)
    requires input.fork != Genesis.Merge
    ensures r.Some? <==> Genesis.Generates(input, root)
    ensures r.Some? ==> Genesis.WellFormed(r.value, input.initialValidator, root, h, lengthChunk)
    ensures r.Some? ==> Genesis.TakenFrom(r.value, input)
  {
    var state := Genesis.GenerateGenesis(input, root, h, lengthChunk);
    return if state.Ok? then state.value else None;
  }

  /** A server with its system containers running; nothing is deployed when the tranche check fails. */
  method Boot(config: Config, divides: bool, env: StartEnv) returns (server: Server, ok: bool)
    ensures fresh(server) && server.Valid() && server.config == config
    ensures ok <==> divides && SystemOk(env)
    ensures ok ==> server.View() == FirstState(config, env)
  {
    server := new Server(config);
    if !divides {
      return server, false;
    }
    ok := server.DeploySystem(env);
    ok := ok && env.contractOk;
    assert server.TranchesView() == map[];
  }

  lemma StartCases(cfg: Config, env: StartEnv)
    ensures var (s, ok) := GenesisTranches(FirstState(cfg, env), cfg, env, 0);
            Start(cfg, env) == if SystemOk(env) && ok && env.genesisOk then Some(s) else None
  {
  }

  /** NewServer: the server is usable when a genesis state comes with it. The tranches must divide the genesis
      validators; numTranches 0 panics in the source. */
  method NewServer(config: Config, numGenesis: nat, numTranches: nat, env: StartEnv, altairAtGenesis: bool,
                   genesisTime: int, block: Genesis.Block,
                   root: Genesis.ElementRoot, h: Genesis.Hash, lengthChunk: nat -> Genesis.Chunk)
    returns (server: Server, state: Option<Genesis.BeaconState>)
    requires numTranches > 0
    requires |env.accounts| == LoopCount(numTranches)
    requires forall t :: 0 <= t < |env.accounts| ==> |env.accounts[t]| == LoopCount(numGenesis / numTranches)
    ensures server.Valid() && server.config == config
    ensures var input := GenesisInput(Genesis.Flatten(env.accounts), altairAtGenesis, genesisTime, block);
            state.Some? <==> numGenesis % numTranches == 0 && Start(config, env).Some? && Genesis.Generates(input, root)
    ensures state.Some? ==> Some(server.View()) == Start(config, env)
    ensures state.Some? ==> Genesis.WellFormed(state.value, Genesis.Flatten(env.accounts), root, h, lengthChunk)
    ensures state.Some? ==> StartsFrom(state.value, altairAtGenesis, genesisTime, block)
  {
    StartCases(config, env);
    var ok;
    state := None;
    server, ok := Boot(config, numGenesis % numTranches == 0, env);
    if ok {
      state := server.SetupGenesis(env, altairAtGenesis, genesisTime, block, root, h, lengthChunk);
    }
  }

  /** The descriptions of the system containers, as far as they are modelled. */
  method SystemSpec(k: nat) returns (spec: Spec)
    requires k < 3
    ensures fresh(spec) && spec.Data() == if k == 0 then BOOTNODE else if k == 1 then BOOTNODE_V4 else ETH1
  {
    spec := new Spec();
    if k == 0 {
      spec.WithName("bootnode");
      spec.WithContainer("gcr.io/prysmaticlabs/prysm/bootnode");
    } else if k == 1 {
      spec.WithName("bootnode-v4");
      spec.WithContainer("ethereum/client-go");
      spec.WithTag("alltools-release-1.10");
    } else {
      spec.WithName("eth1");
      spec.WithContainer("ethereum/client-go");
      spec.WithTag("v1.10.20");
      spec.WithMount("/data");
      spec.WithLabel("clique-validator", "true");
    }
  }

  lemma BeaconChosen(s: State, cfg: Config, req: Request, env: Env, target: Option<NodeData>, beacon: NodeData, k: nat)
    requires req.role.ValidatorRole?
    requires (if target.Some? then target else PickBeacon(s.nodes, req.client)) == Some(beacon)
    ensures ControlPlane.DeployValidator(s, cfg, req, env, target, k)
         == ControlPlane.DeployValidator(s, cfg, req, env, Some(beacon), k)
  {
  }

  /** What a request still does once its beacons are deployed; the first of them is at position first. */
  function AfterBeacons(s1: State, ok: bool, cfg: Config, req: Request, env: Env, first: nat): (State, bool)
    requires ok ==> |s1.nodes| == first + BeaconCount(req.role)
  {
    var n := BeaconCount(req.role);
    if !ok || req.role.BeaconRole? then (s1, ok)
    else ControlPlane.DeployValidator(s1, cfg, req, env, if n > 0 then Some(s1.nodes[first]) else None, n)
  }

  lemma NodeDeployCases(s: State, cfg: Config, req: Request, env: Env, s1: State, ok: bool)
    requires ControlPlane.DeployBeacons(s, cfg, req, env, 0, BeaconCount(req.role)) == (s1, ok)
    requires ok ==> |s1.nodes| == |s.nodes| + BeaconCount(req.role)
    ensures ControlPlane.NodeDeploy(s, cfg, req, env) == AfterBeacons(s1, ok, cfg, req, env, |s.nodes|)
  {
  }

  /** What deployValidator still does once it has its tranche. */
  function WithTranche(s1: State, cfg: Config, req: Request, env: Env, t: nat, target: NodeData, k: nat): (State, bool)
    requires t in s1.tranches
  {
    if KeystoresOk(req.client, |s1.tranches[t].accounts|, env.keystoreOk) && LaunchOk(env, k)
    then (Registered(s1, cfg, req, t, target, env.ip(k)), true)
    else (s1, false)
  }

  lemma WithTrancheCases(s1: State, cfg: Config, req: Request, env: Env, t: nat, target: NodeData, k: nat)
    requires t in s1.tranches
    ensures var count := CountType(s1.nodes, VALIDATOR);
            var v := ValidatorNode(cfg, req, count, s1.tranches[t].accounts, target, env.ip(k));
            WithTranche(s1, cfg, req, env, t, target, k)
            == if KeystoresOk(req.client, |s1.tranches[t].accounts|, env.keystoreOk) && LaunchOk(env, k)
               then (State(s1.nodes + [v], Take(s1.tranches, t, ValidatorName(count, req.client)), s1.issued), true)
               else (s1, false)
  {
  }

  lemma TrancheCases(s: State, cfg: Config, req: Request, env: Env, target: NodeData, k: nat)
    requires req.role.ValidatorRole? && Supported(req.client)
    ensures var (s1, index) := ControlPlane.ObtainTranche(s, cfg, req.role, env);
            ControlPlane.DeployValidator(s, cfg, req, env, Some(target), k)
            == if index.Some? then WithTranche(s1, cfg, req, env, index.value, target, k) else (s1, false)
  {
    DeployValidatorCases(s, cfg, req, env, target, k);
  }

  lemma StubsAppend(before: seq<NodeData>, after: seq<NodeData>, first: nat)
    requires first <= |before| && before <= after && |after| == |before| + 1
    ensures Stubs(after[first..]) == Stubs(before[first..]) + [Stub(after[|before|])]
  {
    assert after[first..] == before[first..] + [after[|before|]];
  }

  /** Tranche.ToProto with its index; fails when a key does not marshal. */
  method ToStub(index: nat, tranche: Tranche) returns (r: Option<TrancheStub>)
    ensures r.Some? <==> AllMarshal(tranche.accounts)
    ensures r.Some? ==> r.value == StubOfTranche(index, tranche.Data())
    ensures r.Some? ==> r.value.index == index && ShowsTranche(r.value, tranche.Data())
  {
    var accounts: seq<AccountStub> := [];
    for i := 0 to |tranche.accounts|
      invariant AllMarshal(tranche.accounts[..i]) && |accounts| == i
      invariant forall j :: 0 <= j < i ==>
                  && tranche.accounts[j].bls.prv.Some?
                  && accounts[j] == AccountStub(HexEncode(tranche.accounts[j].bls.prv.value), HexEncode(tranche.accounts[j].bls.pub))
    {
      var key := tranche.accounts[i].bls;
      if key.prv.None? {
        return None;
      }
      accounts := accounts + [AccountStub(HexEncode(key.prv.value), HexEncode(key.pub))];
    }
    assert accounts == StubOfTranche(index, tranche.Data()).accounts;
    StubReadsBack(index, tranche.Data());
    return Some(TrancheStub(index, accounts, tranche.validator, tranche.filepath));
  }

  method NewValidator(c: NodeClient, cfg: ValidatorConfig, keystoreOk: nat -> bool) returns (r: Option<Spec>)
    requires Supported(c)
    ensures r.Some? <==> KeystoresOk(c, |cfg.accounts|, keystoreOk)
    ensures r.Some? ==> fresh(r.value) && r.value.Data() == ValidatorSpec(c, cfg)
  {
    match c
    case Lighthouse => r := NewLighthouseValidator(cfg, keystoreOk);
    case Teku => r := NewTekuValidator(cfg, keystoreOk);
    case Prysm => r := NewPrysmValidator(cfg, keystoreOk);
  }

  /** Requests one after another, as the server lock admits them. */
  method Serve(server: Server, run: seq<Event>)
    requires server.Valid()
    modifies server, server.tranches.Values
    ensures server.Valid()
    ensures server.View() == After(old(server.View()), server.config, run)
  {
    ghost var result := After(server.View(), server.config, run);
    var i := 0;
    assert run[0..] == run;
    while i < |run|
      invariant 0 <= i <= |run| && server.Valid()
      invariant fresh(server.tranches.Values - old(server.tranches.Values))
      invariant After(server.View(), server.config, run[i..]) == result
    {
      assert run[i..][0] == run[i] && run[i..][1..] == run[i + 1..];
      HandleOne(server, run[i]);
      i := i + 1;
    }
  }

  method HandleOne(server: Server, e: Event)
    requires server.Valid()
    modifies server, server.tranches.Values
    ensures server.Valid()
    ensures fresh(server.tranches.Values - old(server.tranches.Values))
    ensures server.View() == Step(old(server.View()), server.config, e)
  {
    match e
    case Create(_, env) =>
      var stub := server.DepositCreate(env);
    case Deploy(req, env) =>
      var ok, created := server.NodeDeploy(req, env);
  }

  /** In every reachable state the listing of the tranches succeeds: all their keys marshal. */
  lemma ListingNeverFails(s: State, cfg: Config)
    requires Reachable(s, cfg)
    ensures forall k :: k in s.tranches ==> AllMarshal(s.tranches[k].accounts)
  {
    ReachableInv(s, cfg);
    assert forall k :: k in s.tranches ==> TrancheOk(s.tranches[k], k, s.issued, cfg);
  }

  lemma TypeNamesRead()
    ensures StringToNodeType("Beacon") == Some(BeaconType) && StringToNodeType("Validator") == Some(ValidatorType)
    ensures StringToNodeType("").None?
  {
    assert Title("Beacon") == "Beacon" && Title("Validator") == "Validator" && Title("") == "";
  }

  lemma ClientNamesRead()
    ensures forall c :: Supported(c) ==> StringToNodeClient(ClientName(c)) == Some(c)
    ensures StringToNodeClient("").None?
  {
    assert Title("Prysm") == "Prysm" && Title("Teku") == "Teku" && Title("Lighthouse") == "Lighthouse" && Title("") == "";
  }

  lemma StubKindOf(n: NodeData)
    ensures HasType(n, BEACON) ==> Stub(n).kind == BeaconType
    ensures HasType(n, VALIDATOR) ==> Stub(n).kind == ValidatorType
    ensures Label(n.spec.labels, TYPE_LABEL) == "" ==> Stub(n).kind == OtherType
  {
    TypeNamesRead();
  }

  lemma StubClientOf(n: NodeData)
    ensures Supported(ClientOf(n)) ==> Stub(n).client == ClientOf(n)
    ensures Label(n.spec.labels, CLIENT_LABEL) == "" ==> Stub(n).client == ClientOf(n) == OtherClient
  {
    ClientNamesRead();
    assert Supported(ClientOf(n)) ==> HasClient(n, ClientOf(n));
  }

  lemma StubShows(nodes: seq<NodeData>, i: nat)
    requires NodesInv(nodes) && i < |nodes|
    ensures Stub(nodes[i]).kind ==
            if HasType(nodes[i], BEACON) then BeaconType else if HasType(nodes[i], VALIDATOR) then ValidatorType else OtherType
    ensures Stub(nodes[i]).client == ClientOf(nodes[i])
  {
    NodeKind(nodes, i);
    StubKindOf(nodes[i]);
    StubClientOf(nodes[i]);
    if i < SYSTEM_NODES {
      assert IsSystem(nodes[i], nodes[i].spec.name);
    }
  }

  /** The stub of a registered node shows its kind and, for beacons and validators, its client. */
  lemma StubShowsNode(s: State, cfg: Config, i: nat)
    requires Reachable(s, cfg) && i < |s.nodes|
    ensures Stub(s.nodes[i]).kind ==
            if HasType(s.nodes[i], BEACON) then BeaconType else if HasType(s.nodes[i], VALIDATOR) then ValidatorType else OtherType
    ensures Stub(s.nodes[i]).client == ClientOf(s.nodes[i])
  {
    ReachableInv(s, cfg);
    StubShows(s.nodes, i);
  }

  lemma ListedName(nodes: seq<NodeData>, i: nat)
    requires i < |nodes|
    ensures Stubs(nodes)[i].name == nodes[i].spec.name
  {
  }

  /** Listed names are distinct, and asking for the status of a listed name gives that very stub. */
  lemma StatusOfListed(s: State, cfg: Config, i: nat, k: nat)
    requires Reachable(s, cfg) && i < |s.nodes| && k < |s.nodes|
    ensures var stubs := Stubs(s.nodes);
            && (forall j :: 0 <= j < |stubs| && stubs[j].name == stubs[i].name ==> j == i)
            && (s.nodes[k].spec.name == stubs[i].name ==> Stub(s.nodes[k]) == stubs[i])
  {
    ListedName(s.nodes, i);
    NamesNumbered(s, cfg, i);
    forall j | 0 <= j < |s.nodes| && Stubs(s.nodes)[j].name == Stubs(s.nodes)[i].name
      ensures j == i
    {
      ListedName(s.nodes, j);
    }
  }
}
