/** What the control plane guarantees over every run: one invariant over nodes and tranches, and the guarantees that
    follow from it. */
module ControlPlaneProofs {
  import opened Keys
  import opened ContainerSpec
  import opened Components
  import opened ControlPlane
  import Deployment

  const SYSTEM_NODES: nat := 3

  // ---------- the invariant ----------

  /** The client a node's label names. */
  function ClientOf(n: NodeData): NodeClient {
    if HasClient(n, Prysm) then Prysm
    else if HasClient(n, Teku) then Teku
    else if HasClient(n, Lighthouse) then Lighthouse
    else OtherClient
  }

  predicate IsSystem(n: NodeData, name: string) {
    n.spec.name == name && TYPE_LABEL !in n.spec.labels && CLIENT_LABEL !in n.spec.labels
  }

  predicate IsBeacon(n: NodeData, k: nat) {
    HasType(n, BEACON) && Supported(ClientOf(n)) && n.spec.name == BeaconName(k, ClientOf(n))
  }

  ghost predicate IsValidator(n: NodeData, k: nat) {
    && HasType(n, VALIDATOR) && Supported(ClientOf(n)) && n.spec.name == ValidatorName(k, ClientOf(n))
    && Deployment.CleanContainer(n.spec)
  }

  /** The validator talks to this beacon node, which is of its own client. */
  ghost predicate Serves(b: NodeData, v: NodeData) {
    HasType(b, BEACON) && ClientOf(b) == ClientOf(v) && TalksTo(ClientOf(v), v.spec, b)
  }

  /** Three system nodes, then beacons and validators, each numbered by how many of its kind came before, and each
      validator talking to an earlier beacon node. */
  ghost predicate NodesInv(nodes: seq<NodeData>) {
    && |nodes| >= SYSTEM_NODES
    && IsSystem(nodes[0], "bootnode") && IsSystem(nodes[1], "bootnode-v4") && IsSystem(nodes[2], "eth1")
    && forall i :: SYSTEM_NODES <= i < |nodes| ==> NodeAt(nodes, i)
  }

  ghost predicate NodeAt(nodes: seq<NodeData>, i: nat)
    requires i < |nodes|
  {
    || IsBeacon(nodes[i], CountType(nodes[..i], BEACON))
    || (IsValidator(nodes[i], CountType(nodes[..i], VALIDATOR)) && exists j :: 0 <= j < i && Serves(nodes[j], nodes[i]))
  }

  ghost predicate TrancheOk(t: TrancheData, k: nat, issued: set<Bytes>, cfg: Config) {
    Distinct(t.accounts) && AllMarshal(t.accounts) && PubKeys(t.accounts) <= issued && t.filepath == TranchePath(cfg.dir, k)
  }

  /** The indices are 0..n-1; accounts are marshallable, issued, and in one tranche only. */
  ghost predicate TranchesInv(tranches: map<nat, TrancheData>, issued: set<Bytes>, cfg: Config) {
    && Dense(tranches)
    && (forall k :: k in tranches ==> TrancheOk(tranches[k], k, issued, cfg))
    && AccountsSeparate(tranches)
  }

  ghost predicate Dense(tranches: map<nat, TrancheData>) {
    forall k: nat :: k in tranches <==> k < |tranches|
  }

  ghost predicate AccountsSeparate(tranches: map<nat, TrancheData>) {
    forall k, l :: k in tranches && l in tranches && k != l ==>
      PubKeys(tranches[k].accounts) !! PubKeys(tranches[l].accounts)
  }

  /** The node consumed the tranche and runs exactly its keys. */
  predicate Owns(n: NodeData, t: TrancheData) {
    HasType(n, VALIDATOR) && t.validator == n.spec.name && LoadedKeys(ClientOf(n), n.spec) == BlsKeys(t.accounts)
  }

  ghost predicate HasOwner(nodes: seq<NodeData>, t: TrancheData) {
    exists i :: 0 <= i < |nodes| && Owns(nodes[i], t)
  }

  ghost predicate HasTranche(tranches: map<nat, TrancheData>, n: NodeData) {
    exists k :: k in tranches && Owns(n, tranches[k])
  }

  ghost predicate OwnershipInv(nodes: seq<NodeData>, tranches: map<nat, TrancheData>) {
    && (forall k :: k in tranches && IsConsumed(tranches[k]) ==> HasOwner(nodes, tranches[k]))
    && (forall i :: 0 <= i < |nodes| && HasType(nodes[i], VALIDATOR) ==> HasTranche(tranches, nodes[i]))
    && (forall k, l :: k in tranches && l in tranches && k != l && IsConsumed(tranches[k]) ==>
          tranches[k].validator != tranches[l].validator)
  }

  ghost predicate Inv(s: State, cfg: Config) {
    NodesInv(s.nodes) && TranchesInv(s.tranches, s.issued, cfg) && OwnershipInv(s.nodes, s.tranches)
  }

  // ---------- names ----------

  lemma {:induction false} CountMonotone(nodes: seq<NodeData>, typ: string, i: nat, j: nat)
    requires i < j <= |nodes| && HasType(nodes[i], typ)
    ensures CountType(nodes[..i], typ) < CountType(nodes[..j], typ)
    decreases j
  {
    assert nodes[..j][..j - 1] == nodes[..j - 1];
    if i < j - 1 {
      CountMonotone(nodes, typ, i, j - 1);
    }
  }

  lemma NodeKind(nodes: seq<NodeData>, i: nat)
    requires NodesInv(nodes) && i < |nodes|
    ensures i < SYSTEM_NODES ==> nodes[i].spec.name in {"bootnode", "bootnode-v4", "eth1"}
    ensures HasType(nodes[i], BEACON) ==> IsBeacon(nodes[i], CountType(nodes[..i], BEACON))
    ensures HasType(nodes[i], VALIDATOR) ==> IsValidator(nodes[i], CountType(nodes[..i], VALIDATOR))
    ensures i >= SYSTEM_NODES ==> HasType(nodes[i], BEACON) || HasType(nodes[i], VALIDATOR)
  {
    assert BEACON != VALIDATOR;
    if i >= SYSTEM_NODES {
      assert NodeAt(nodes, i);
    }
  }

  lemma NamePrefixes(k: nat, c: NodeClient)
    ensures BeaconName(k, c)[..2] == "be" && ValidatorName(k, c)[..2] == "va"
  {
  }

  /** No two registered nodes share a name. */
  lemma NamesDistinct(nodes: seq<NodeData>, i: nat, j: nat)
    requires NodesInv(nodes) && i < j < |nodes|
    ensures nodes[i].spec.name != nodes[j].spec.name
  {
    NodeKind(nodes, i);
    NodeKind(nodes, j);
    var a, b := nodes[i], nodes[j];
    NamePrefixes(CountType(nodes[..i], BEACON), ClientOf(a));
    NamePrefixes(CountType(nodes[..i], VALIDATOR), ClientOf(a));
    NamePrefixes(CountType(nodes[..j], BEACON), ClientOf(b));
    NamePrefixes(CountType(nodes[..j], VALIDATOR), ClientOf(b));
    if a.spec.name == b.spec.name && i >= SYSTEM_NODES {
      SameKindDiffers(nodes, i, j, if HasType(a, BEACON) then BEACON else VALIDATOR);
    } else if j < SYSTEM_NODES {
      assert "bootnode" != "bootnode-v4";
    } else {
      assert "bootnode"[..2] == "bo" && "bootnode-v4"[..2] == "bo" && "eth1"[..2] == "et";
    }
  }

  lemma SameKindDiffers(nodes: seq<NodeData>, i: nat, j: nat, typ: string)
    requires NodesInv(nodes) && SYSTEM_NODES <= i < j < |nodes|
    requires typ == BEACON || typ == VALIDATOR
    requires HasType(nodes[i], typ) && HasType(nodes[j], typ)
    ensures nodes[i].spec.name != nodes[j].spec.name
  {
    NodeKind(nodes, i);
    NodeKind(nodes, j);
    CountMonotone(nodes, typ, i, j);
    var m, n := CountType(nodes[..i], typ), CountType(nodes[..j], typ);
    var prefix := if typ == BEACON then "beacon-" else "validator-";
    if nodes[i].spec.name == nodes[j].spec.name {
      NodeNameInjective(prefix, m, ClientOf(nodes[i]), n, ClientOf(nodes[j]));
    }
  }

  // ---------- appending nodes and tranches ----------

  lemma AppendNode(nodes: seq<NodeData>, n: NodeData)
    requires NodesInv(nodes)
    requires NodeAt(nodes + [n], |nodes|)
    ensures NodesInv(nodes + [n])
  {
    var more := nodes + [n];
    forall i | SYSTEM_NODES <= i < |more|
      ensures NodeAt(more, i)
    {
      if i < |nodes| {
        assert NodeAt(nodes, i) && more[..i] == nodes[..i];
      }
    }
  }

  lemma AppendBeacon(s: State, cfg: Config, n: NodeData)
    requires Inv(s, cfg) && IsBeacon(n, CountType(s.nodes, BEACON))
    ensures Inv(s.(nodes := s.nodes + [n]), cfg)
  {
    var s' := s.(nodes := s.nodes + [n]);
    assert s'.nodes[..|s.nodes|] == s.nodes;
    AppendNode(s.nodes, n);
    assert BEACON != VALIDATOR;
    forall k | k in s'.tranches && IsConsumed(s'.tranches[k])
      ensures HasOwner(s'.nodes, s'.tranches[k])
    {
      assert HasOwner(s.nodes, s.tranches[k]);
      var i :| 0 <= i < |s.nodes| && Owns(s.nodes[i], s.tranches[k]);
      assert Owns(s'.nodes[i], s'.tranches[k]);
    }
  }

  lemma AddTrancheDense(tranches: map<nat, TrancheData>, t: TrancheData)
    requires Dense(tranches)
    ensures Dense(tranches[|tranches| := t])
  {
    var n := |tranches|;
    var more := tranches[n := t];
    assert n !in tranches;
    assert |more| == n + 1;
    forall k: nat
      ensures k in more <==> k < n + 1
    {
      assert k in more <==> k == n || k in tranches;
    }
  }

  lemma AddTrancheSeparate(tranches: map<nat, TrancheData>, issued: set<Bytes>, n: nat, t: TrancheData)
    requires AccountsSeparate(tranches) && n !in tranches
    requires PubKeys(t.accounts) !! issued && forall k :: k in tranches ==> PubKeys(tranches[k].accounts) <= issued
    ensures AccountsSeparate(tranches[n := t])
  {
  }

  lemma AddTrancheKeepsTranches(tranches: map<nat, TrancheData>, issued: set<Bytes>, cfg: Config, t: TrancheData)
    requires TranchesInv(tranches, issued, cfg)
    requires PubKeys(t.accounts) !! issued && TrancheOk(t, |tranches|, issued + PubKeys(t.accounts), cfg)
    ensures TranchesInv(tranches[|tranches| := t], issued + PubKeys(t.accounts), cfg)
  {
    IssuedGrows(tranches, issued, issued + PubKeys(t.accounts), cfg);
    AddTrancheDense(tranches, t);
    assert forall k :: k in tranches ==> TrancheOk(tranches[k], k, issued, cfg);
    AddTrancheSeparate(tranches, issued, |tranches|, t);
  }

  lemma AddTrancheKeepsOwnership(nodes: seq<NodeData>, tranches: map<nat, TrancheData>, n: nat, t: TrancheData)
    requires OwnershipInv(nodes, tranches) && n !in tranches && !IsConsumed(t)
    ensures OwnershipInv(nodes, tranches[n := t])
  {
    var more := tranches[n := t];
    forall i | 0 <= i < |nodes| && HasType(nodes[i], VALIDATOR)
      ensures HasTranche(more, nodes[i])
    {
      assert HasTranche(tranches, nodes[i]);
      var k :| k in tranches && Owns(nodes[i], tranches[k]);
      assert Owns(nodes[i], more[k]);
    }
  }

  lemma CreateKeepsInv(s: State, cfg: Config, env: Env, deposit: bool)
    requires Inv(s, cfg) && Fresh(s, env.accounts)
    ensures Inv(CreateTranche(s, cfg, env, deposit).0, cfg)
  {
    var (s', index) := CreateTranche(s, cfg, env, deposit);
    if index.Some? {
      var t := s'.tranches[index.value];
      AddTrancheKeepsTranches(s.tranches, s.issued, cfg, t);
      AddTrancheKeepsOwnership(s.nodes, s.tranches, index.value, t);
    } else {
      IssuedGrows(s.tranches, s.issued, s'.issued, cfg);
    }
  }

  lemma IssuedGrows(tranches: map<nat, TrancheData>, issued: set<Bytes>, more: set<Bytes>, cfg: Config)
    requires TranchesInv(tranches, issued, cfg) && issued <= more
    ensures TranchesInv(tranches, more, cfg)
  {
    forall k | k in tranches
      ensures TrancheOk(tranches[k], k, more, cfg)
    {
      assert TrancheOk(tranches[k], k, issued, cfg);
    }
  }

  function Take(tranches: map<nat, TrancheData>, t: nat, name: string): map<nat, TrancheData>
    requires t in tranches
  {
    tranches[t := tranches[t].(validator := name)]
  }

  lemma TakeKeepsTranches(tranches: map<nat, TrancheData>, issued: set<Bytes>, cfg: Config, t: nat, name: string)
    requires TranchesInv(tranches, issued, cfg) && t in tranches
    ensures TranchesInv(Take(tranches, t, name), issued, cfg)
  {
    var taken := Take(tranches, t, name);
    assert taken.Keys == tranches.Keys;
    forall k | k in taken
      ensures TrancheOk(taken[k], k, issued, cfg)
    {
      assert TrancheOk(tranches[k], k, issued, cfg);
    }
  }

  /** A consumed tranche keeps its owner, and the new node's name is none of the old owners'. */
  lemma OldOwnerStays(nodes: seq<NodeData>, n: NodeData, t: TrancheData)
    requires NodesInv(nodes + [n]) && HasOwner(nodes, t)
    ensures HasOwner(nodes + [n], t) && t.validator != n.spec.name
  {
    var more := nodes + [n];
    var i :| 0 <= i < |nodes| && Owns(nodes[i], t);
    assert Owns(more[i], t);
    NamesDistinct(more, i, |nodes|);
  }

  lemma OldTrancheStays(nodes: seq<NodeData>, tranches: map<nat, TrancheData>, t: nat, name: string, i: nat)
    requires NodesInv(nodes) && OwnershipInv(nodes, tranches) && t in tranches && !IsConsumed(tranches[t])
    requires i < |nodes| && HasType(nodes[i], VALIDATOR)
    ensures HasTranche(Take(tranches, t, name), nodes[i])
  {
    assert HasTranche(tranches, nodes[i]);
    var k :| k in tranches && Owns(nodes[i], tranches[k]);
    NodeKind(nodes, i);
    NamePrefixes(CountType(nodes[..i], VALIDATOR), ClientOf(nodes[i]));
    assert IsConsumed(tranches[k]);
    assert Owns(nodes[i], Take(tranches, t, name)[k]);
  }

  lemma TakeKeepsOwnership(nodes: seq<NodeData>, tranches: map<nat, TrancheData>, n: NodeData, t: nat)
    requires NodesInv(nodes) && NodesInv(nodes + [n]) && OwnershipInv(nodes, tranches)
    requires t in tranches && !IsConsumed(tranches[t])
    requires Owns(n, tranches[t].(validator := n.spec.name))
    ensures OwnershipInv(nodes + [n], Take(tranches, t, n.spec.name))
  {
    var nodes', tranches' := nodes + [n], Take(tranches, t, n.spec.name);
    assert Owns(nodes'[|nodes|], tranches'[t]);
    forall k | k in tranches' && IsConsumed(tranches'[k])
      ensures HasOwner(nodes', tranches'[k])
      ensures k != t ==> tranches'[k].validator != n.spec.name
    {
      if k != t {
        OldOwnerStays(nodes, n, tranches[k]);
      }
    }
    forall i | 0 <= i < |nodes'| && HasType(nodes'[i], VALIDATOR)
      ensures HasTranche(tranches', nodes'[i])
    {
      if i == |nodes| {
        assert Owns(n, tranches'[t]);
      } else {
        OldTrancheStays(nodes, tranches, t, n.spec.name, i);
      }
    }
  }

  lemma AppendValidatorNode(nodes: seq<NodeData>, n: NodeData, target: NodeData)
    requires NodesInv(nodes) && IsValidator(n, CountType(nodes, VALIDATOR)) && target in nodes && Serves(target, n)
    ensures NodesInv(nodes + [n])
  {
    var more := nodes + [n];
    assert more[..|nodes|] == nodes;
    var j :| 0 <= j < |nodes| && nodes[j] == target;
    assert Serves(more[j], more[|nodes|]);
    assert NodeAt(more, |nodes|);
    AppendNode(nodes, n);
  }

  /** Registering a validator and consuming its tranche in one step. */
  lemma AppendValidator(s: State, cfg: Config, n: NodeData, t: nat, target: NodeData)
    requires Inv(s, cfg) && t in s.tranches && !IsConsumed(s.tranches[t])
    requires IsValidator(n, CountType(s.nodes, VALIDATOR)) && target in s.nodes && Serves(target, n)
    requires LoadedKeys(ClientOf(n), n.spec) == BlsKeys(s.tranches[t].accounts)
    ensures Inv(s.(nodes := s.nodes + [n], tranches := Take(s.tranches, t, n.spec.name)), cfg)
  {
    AppendValidatorNode(s.nodes, n, target);
    TakeKeepsTranches(s.tranches, s.issued, cfg, t, n.spec.name);
    TakeKeepsOwnership(s.nodes, s.tranches, n, t);
  }
}
