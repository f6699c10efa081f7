/** The genesis state of the consensus chain: the validator registry that GenerateGenesis builds and the root that
    ValidatorSet.HashTreeRoot computes with a stack-like hasher. Merkleization follows the consensus-specs
    `simple-serialize.md`; the hash is a parameter. */
module Genesis {
  import opened GoIntegers
  import opened Wrappers
  import opened Keys

  type Chunk = Bytes
  type Hash = (Chunk, Chunk) -> Chunk

  const ZERO: Chunk := seq(32, _ => 0)
  const REGISTRY_LIMIT: nat := 1099511627776
  const REGISTRY_DEPTH: nat := 40
  const MIN_VALIDATOR_BALANCE: nat := 32000000000
  const FAR_FUTURE_EPOCH: nat := 18446744073709551615
  const SLASHINGS: nat := 8192

  // ---------- Merkleization ----------

  function Pow2(n: nat): nat {
    if n == 0 then 1 else 2 * Pow2(n - 1)
  }

  /** The root of a full binary tree with 2^depth leaves: the chunks, then zero chunks. */
  function Root(h: Hash, depth: nat, chunks: seq<Chunk>): Chunk
    requires |chunks| <= Pow2(depth)
  {
    if depth == 0 then if chunks == [] then ZERO else chunks[0]
    else
      var cut := if |chunks| <= Pow2(depth - 1) then |chunks| else Pow2(depth - 1);
      h(Root(h, depth - 1, chunks[..cut]), Root(h, depth - 1, chunks[cut..]))
  }

  /** The depth of the smallest tree with room for limit leaves. */
  function Depth(limit: nat): (d: nat)
    ensures limit <= Pow2(d)
    ensures d > 0 ==> Pow2(d - 1) < limit
  {
    if limit <= 1 then 0 else 1 + Depth((limit + 1) / 2)
  }

  /** hash_tree_root of a List[Validator, 2^40] with the given element roots. */
  function RegistryRoot(h: Hash, lengthChunk: nat -> Chunk, leaves: seq<Chunk>): Chunk
    requires |leaves| <= Pow2(REGISTRY_DEPTH)
  {
    h(Root(h, REGISTRY_DEPTH, leaves), lengthChunk(|leaves|))
  }

  ghost predicate CollisionFree(h: Hash) {
    forall a, b, c, d {:trigger NoCollision(h, a, b, c, d)} :: NoCollision(h, a, b, c, d)
  }

  predicate NoCollision(h: Hash, a: Chunk, b: Chunk, c: Chunk, d: Chunk) {
    h(a, b) == h(c, d) ==> a == c && b == d
  }

  ghost predicate LengthsDiffer(lengthChunk: nat -> Chunk) {
    forall m, n :: lengthChunk(m) == lengthChunk(n) ==> m == n
  }

  lemma HalvesBind(h: Hash, depth: nat, a: seq<Chunk>, b: seq<Chunk>, cut: nat)
    requires CollisionFree(h) && depth > 0 && |a| == |b| <= Pow2(depth)
    requires cut == if |a| <= Pow2(depth - 1) then |a| else Pow2(depth - 1)
    requires Root(h, depth, a) == Root(h, depth, b)
    ensures |a[cut..]| == |b[cut..]| <= Pow2(depth - 1)
    ensures Root(h, depth - 1, a[..cut]) == Root(h, depth - 1, b[..cut])
    ensures Root(h, depth - 1, a[cut..]) == Root(h, depth - 1, b[cut..])
  {
    RootSplits(h, depth, a, cut);
    RootSplits(h, depth, b, cut);
    assert NoCollision(h, Root(h, depth - 1, a[..cut]), Root(h, depth - 1, a[cut..]),
                       Root(h, depth - 1, b[..cut]), Root(h, depth - 1, b[cut..]));
  }

  lemma PartsEqual(a: seq<Chunk>, b: seq<Chunk>, cut: nat)
    requires cut <= |a| && cut <= |b| && a[..cut] == b[..cut] && a[cut..] == b[cut..]
    ensures a == b
  {
    assert a == a[..cut] + a[cut..] && b == b[..cut] + b[cut..];
  }

  lemma {:induction false} RootBinds(h: Hash, depth: nat, a: seq<Chunk>, b: seq<Chunk>)
    requires CollisionFree(h) && |a| == |b| <= Pow2(depth)
    requires Root(h, depth, a) == Root(h, depth, b)
    ensures a == b
  {
    if depth > 0 {
      var cut := if |a| <= Pow2(depth - 1) then |a| else Pow2(depth - 1);
      HalvesBind(h, depth, a, b, cut);
      RootBinds(h, depth - 1, a[..cut], b[..cut]);
      RootBinds(h, depth - 1, a[cut..], b[cut..]);
      PartsEqual(a, b, cut);
    }
  }

  /** The registry root commits to the whole registry: its length and every element, in order. */
  lemma RegistryRootCommits(h: Hash, lengthChunk: nat -> Chunk, a: seq<Chunk>, b: seq<Chunk>)
    requires CollisionFree(h) && LengthsDiffer(lengthChunk)
    requires |a| <= Pow2(REGISTRY_DEPTH) && |b| <= Pow2(REGISTRY_DEPTH)
    ensures RegistryRoot(h, lengthChunk, a) == RegistryRoot(h, lengthChunk, b) <==> a == b
  {
    if RegistryRoot(h, lengthChunk, a) == RegistryRoot(h, lengthChunk, b) {
      assert NoCollision(h, Root(h, REGISTRY_DEPTH, a), lengthChunk(|a|), Root(h, REGISTRY_DEPTH, b), lengthChunk(|b|));
      RootBinds(h, REGISTRY_DEPTH, a, b);
    }
  }

  /** Without the length a trailing zero chunk is invisible, which is why the length is mixed in. */
  lemma {:induction false} PaddingIsInvisible(h: Hash, depth: nat, chunks: seq<Chunk>)
    requires |chunks| < Pow2(depth)
    ensures Root(h, depth, chunks + [ZERO]) == Root(h, depth, chunks)
  {
    if depth > 0 {
      var half := Pow2(depth - 1);
      var padded := chunks + [ZERO];
      if |chunks| < half {
        PaddingIsInvisible(h, depth - 1, chunks);
        assert padded[..|padded|] == padded && padded[|padded|..] == [];
        assert chunks[..|chunks|] == chunks && chunks[|chunks|..] == [];
      } else {
        PaddingIsInvisible(h, depth - 1, chunks[half..]);
        assert padded[..half] == chunks[..half] && padded[half..] == chunks[half..] + [ZERO];
      }
    }
  }

  // ---------- layer by layer ----------

  /** One layer up: the hashes of neighbours, as SSZ builds its trees. */
  function Layer(h: Hash, nodes: seq<Chunk>): seq<Chunk>
    requires |nodes| % 2 == 0
  {
    seq(|nodes| / 2, i requires 0 <= i < |nodes| / 2 => h(nodes[2 * i], nodes[2 * i + 1]))
  }

  /** The root of a full binary tree from its leaves up. */
  function LayersRoot(h: Hash, depth: nat, nodes: seq<Chunk>): Chunk
    requires |nodes| == Pow2(depth)
  {
    if depth == 0 then nodes[0] else LayersRoot(h, depth - 1, Layer(h, nodes))
  }

  function Padded(chunks: seq<Chunk>, size: nat): seq<Chunk>
    requires |chunks| <= size
  {
    chunks + seq(size - |chunks|, _ => ZERO)
  }

  lemma LayerSplits(h: Hash, a: seq<Chunk>, b: seq<Chunk>)
    requires |a| % 2 == 0 && |b| % 2 == 0
    ensures Layer(h, a + b) == Layer(h, a) + Layer(h, b)
  {
  }

  lemma {:induction false} LayersSplit(h: Hash, depth: nat, a: seq<Chunk>, b: seq<Chunk>)
    requires depth > 0 && |a| == |b| == Pow2(depth - 1)
    ensures LayersRoot(h, depth, a + b) == h(LayersRoot(h, depth - 1, a), LayersRoot(h, depth - 1, b))
  {
    if depth == 1 {
      assert Layer(h, a + b) == [h(a[0], b[0])];
    } else {
      LayerSplits(h, a, b);
      LayersSplit(h, depth - 1, Layer(h, a), Layer(h, b));
    }
  }

  lemma PaddedSplits(chunks: seq<Chunk>, half: nat, cut: nat)
    requires |chunks| <= 2 * half && cut == if |chunks| <= half then |chunks| else half
    ensures Padded(chunks, 2 * half) == Padded(chunks[..cut], half) + Padded(chunks[cut..], half)
  {
    var whole := Padded(chunks, 2 * half);
    var parts := Padded(chunks[..cut], half) + Padded(chunks[cut..], half);
    forall i | 0 <= i < 2 * half
      ensures whole[i] == parts[i]
    {
    }
  }

  lemma RootSplits(h: Hash, depth: nat, chunks: seq<Chunk>, cut: nat)
    requires depth > 0 && |chunks| <= Pow2(depth)
    requires cut == if |chunks| <= Pow2(depth - 1) then |chunks| else Pow2(depth - 1)
    ensures |chunks[..cut]| <= Pow2(depth - 1) && |chunks[cut..]| <= Pow2(depth - 1)
    ensures Root(h, depth, chunks) == h(Root(h, depth - 1, chunks[..cut]), Root(h, depth - 1, chunks[cut..]))
  {
  }

  /** The same tree from its root down. */
  function FullRoot(h: Hash, depth: nat, nodes: seq<Chunk>): Chunk
    requires |nodes| == Pow2(depth)
  {
    if depth == 0 then nodes[0]
    else h(FullRoot(h, depth - 1, nodes[..Pow2(depth - 1)]), FullRoot(h, depth - 1, nodes[Pow2(depth - 1)..]))
  }

  lemma LayersOfHalves(h: Hash, depth: nat, nodes: seq<Chunk>, half: nat)
    requires depth > 0 && half == Pow2(depth - 1) && |nodes| == Pow2(depth)
    ensures LayersRoot(h, depth, nodes)
         == h(LayersRoot(h, depth - 1, nodes[..half]), LayersRoot(h, depth - 1, nodes[half..]))
  {
    LayersSplit(h, depth, nodes[..half], nodes[half..]);
    assert nodes == nodes[..half] + nodes[half..];
  }

  lemma {:induction false} FullIsLayers(h: Hash, depth: nat, nodes: seq<Chunk>)
    requires |nodes| == Pow2(depth)
    ensures FullRoot(h, depth, nodes) == LayersRoot(h, depth, nodes)
  {
    if depth > 0 {
      var half := Pow2(depth - 1);
      FullIsLayers(h, depth - 1, nodes[..half]);
      FullIsLayers(h, depth - 1, nodes[half..]);
      LayersOfHalves(h, depth, nodes, half);
    }
  }

  lemma {:induction false} RootIsFull(h: Hash, depth: nat, chunks: seq<Chunk>, nodes: seq<Chunk>)
    requires |chunks| <= Pow2(depth) && nodes == Padded(chunks, Pow2(depth))
    ensures Root(h, depth, chunks) == FullRoot(h, depth, nodes)
  {
    if depth > 0 {
      var half := Pow2(depth - 1);
      var cut := if |chunks| <= half then |chunks| else half;
      PaddedSplits(chunks, half, cut);
      HalvesOf(nodes, Padded(chunks[..cut], half), Padded(chunks[cut..], half), half);
      RootIsFull(h, depth - 1, chunks[..cut], nodes[..half]);
      RootIsFull(h, depth - 1, chunks[cut..], nodes[half..]);
      RootSplits(h, depth, chunks, cut);
    }
  }

  lemma HalvesOf(nodes: seq<Chunk>, a: seq<Chunk>, b: seq<Chunk>, half: nat)
    requires nodes == a + b && |a| == half
    ensures nodes[..half] == a && nodes[half..] == b
  {
  }

  /** The root is the one SSZ computes: pad with zero chunks, then hash neighbours layer by layer. */
  lemma RootIsLayers(h: Hash, depth: nat, chunks: seq<Chunk>)
    requires |chunks| <= Pow2(depth)
    ensures Root(h, depth, chunks) == LayersRoot(h, depth, Padded(chunks, Pow2(depth)))
  {
    RootIsFull(h, depth, chunks, Padded(chunks, Pow2(depth)));
    FullIsLayers(h, depth, Padded(chunks, Pow2(depth)));
  }

  /** hash_tree_root(state.validators): the length is hashed in behind the root of the padded tree. */
  lemma RegistryRootIsSsz(h: Hash, lengthChunk: nat -> Chunk, leaves: seq<Chunk>)
    requires |leaves| <= Pow2(REGISTRY_DEPTH)
    ensures RegistryRoot(h, lengthChunk, leaves)
         == h(LayersRoot(h, REGISTRY_DEPTH, Padded(leaves, Pow2(REGISTRY_DEPTH))), lengthChunk(|leaves|))
  {
    RootIsLayers(h, REGISTRY_DEPTH, leaves);
  }

  // ---------- the hasher ----------

  /** The fastssz hasher at the granularity of 32-byte chunks. */
  class Hasher {
    const h: Hash
    const lengthChunk: nat -> Chunk
    var buf: seq<Chunk>

    constructor (h: Hash, lengthChunk: nat -> Chunk)
      ensures this.h == h && this.lengthChunk == lengthChunk && buf == []
    {
      this.h, this.lengthChunk, buf := h, lengthChunk, [];
    }

    function Index(): nat
      reads this
    {
      |buf|
    }

    method Put(chunk: Chunk)
      modifies this
      ensures buf == old(buf) + [chunk]
    {
      buf := buf + [chunk];
    }

    /** Replaces everything pushed since index by the root of the smallest tree that holds it. */
    method Merkleize(index: nat)
      requires index <= |buf|
      modifies this
      ensures buf == old(buf[..index]) + [Root(h, Depth(|old(buf)| - index), old(buf[index..]))]
    {
      var pushed := buf[index..];
      buf := buf[..index] + [Root(h, Depth(|pushed|), pushed)];
    }

    /** Like Merkleize for a tree with room for limit leaves, then hashes in the list length. */
    method MerkleizeWithMixin(index: nat, num: nat, limit: nat)
      requires index <= |buf| && |buf| - index <= limit
      modifies this
      ensures buf == old(buf[..index]) + [h(Root(h, Depth(limit), old(buf[index..])), lengthChunk(num))]
    {
      var pushed := buf[index..];
      buf := buf[..index] + [h(Root(h, Depth(limit), pushed), lengthChunk(num))];
    }

    /** Fails unless exactly one chunk is left. */
    method HashRoot() returns (r: Result<Chunk>)
      ensures r == if |buf| == 1 then Ok(buf[0]) else Err("expected 32 byte size")
    {
      r := if |buf| == 1 then Ok(buf[0]) else Err("expected 32 byte size");
    }
  }

  // ---------- the registry ----------

  datatype Validator = Validator(
    pubkey: Bytes, activationEligibilityEpoch: nat, activationEpoch: nat, effectiveBalance: nat,
    withdrawableEpoch: nat, exitEpoch: nat)

  function GenesisValidator(account: Account): Validator {
    Validator(account.bls.pub, 0, 0, MIN_VALIDATOR_BALANCE, FAR_FUTURE_EPOCH, FAR_FUTURE_EPOCH)
  }

  /** The root of one validator record; None when its hashing reports an error. */
  type ElementRoot = Validator -> Option<Chunk>

  predicate AllHash(root: ElementRoot, set_: seq<Validator>) {
    forall i :: 0 <= i < |set_| ==> root(set_[i]).Some?
  }

  function Leaves(root: ElementRoot, set_: seq<Validator>): seq<Chunk>
    requires AllHash(root, set_)
  {
    seq(|set_|, i requires 0 <= i < |set_| => root(set_[i]).value)
  }

  lemma {:induction false} Pow2Sum(m: nat, n: nat)
    ensures Pow2(m + n) == Pow2(m) * Pow2(n)
  {
    if m > 0 {
      Pow2Sum(m - 1, n);
    }
  }

  lemma {:induction false} DepthOfPow2(n: nat)
    ensures Pow2(n) >= 1 && Depth(Pow2(n)) == n
  {
    if n > 0 {
      DepthOfPow2(n - 1);
    }
  }

  lemma RegistrySize()
    ensures Pow2(REGISTRY_DEPTH) == REGISTRY_LIMIT
  {
    assert Pow2(10) == 1024;
    Pow2Sum(10, 10);
    Pow2Sum(20, 20);
  }

  lemma RegistryDepth()
    ensures Pow2(REGISTRY_DEPTH) == REGISTRY_LIMIT && Depth(REGISTRY_LIMIT) == REGISTRY_DEPTH
  {
    RegistrySize();
    DepthOfPow2(REGISTRY_DEPTH);
  }

  /** ValidatorSet.HashTreeRoot: the pushes and the two merkleizations leave exactly the SSZ list root. */
  method HashTreeRoot(set_: seq<Validator>, root: ElementRoot, h: Hash, lengthChunk: nat -> Chunk)
    returns (r: Result<Chunk>)
    ensures r.Ok? <==> |set_| <= REGISTRY_LIMIT && AllHash(root, set_)
    ensures r.Ok? ==> |set_| <= Pow2(REGISTRY_DEPTH) && r.value == RegistryRoot(h, lengthChunk, Leaves(root, set_))
  {
    var hh := new Hasher(h, lengthChunk);
    var indx := hh.Index();
    var subIndx := hh.Index();
    var num := |set_|;
    if num > REGISTRY_LIMIT {
      return Err("incorrect list size");
    }
    var i := 0;
    while i < |set_|
      invariant 0 <= i <= |set_|
      invariant AllHash(root, set_[..i]) && hh.buf == Leaves(root, set_[..i])
    {
      var leaf := root(set_[i]);
      if leaf.None? {
        return Err("element");
      }
      hh.Put(leaf.value);
      i := i + 1;
    }
    assert set_[..i] == set_;
    var leaves := hh.buf;
    RegistryDepth();
    hh.MerkleizeWithMixin(subIndx, num, REGISTRY_LIMIT);
    assert leaves[..0] == [] && leaves[0..] == leaves;
    assert |hh.buf| == 1 && hh.buf[0] == RegistryRoot(h, lengthChunk, leaves);
    hh.Merkleize(indx);
    r := hh.HashRoot();
  }

  // ---------- GenerateGenesis ----------

  datatype Fork = Phase0 | Altair | Merge

  datatype Block = Block(timestamp: nat, hash: Bytes)

  datatype Input = Input(
    eth1Block: Block, genesisTime: int, initialValidator: seq<Account>, fork: Fork, forkVersion: Bytes)

  /** The fields the program sets; the block header's body root and the empty deposit root are constants. */
  datatype BeaconState = BeaconState(
    fork: Fork, genesisTime: nat, genesisValidatorsRoot: Chunk, forkVersion: Bytes, blockHash: Bytes,
    validators: seq<Validator>, balances: seq<nat>, slashings: seq<nat>)

  predicate ActiveAt(v: Validator, epoch: nat) {
    v.activationEpoch <= epoch < v.exitEpoch
  }

  predicate WithdrawableAt(v: Validator, epoch: nat) {
    v.withdrawableEpoch <= epoch
  }

  /** A validator of the account's key that is active from epoch 0 on, with nothing to withdraw, for every 64-bit epoch
      but the last, which stands for "never". */
  ghost predicate RunsFromStart(v: Validator, account: Account) {
    && v.pubkey == account.bls.pub && v.activationEligibilityEpoch == 0
    && forall epoch :: 0 <= epoch < 18446744073709551615 ==> ActiveAt(v, epoch) && !WithdrawableAt(v, epoch)
  }

  /** What a state takes from the input. */
  predicate TakenFrom(state: BeaconState, input: Input) {
    && state.fork == input.fork && state.forkVersion == input.forkVersion
    && state.genesisTime == ToUint64(input.genesisTime) && state.blockHash == input.eth1Block.hash
  }

  /** Account i is validator i and runs from the start; balances run in step; the root is the one of this very registry. */
  ghost predicate WellFormed(state: BeaconState, accounts: seq<Account>, root: ElementRoot, h: Hash,
                             lengthChunk: nat -> Chunk)
  {
    && |state.validators| == |state.balances| == |accounts| <= Pow2(REGISTRY_DEPTH)
    && (forall i :: 0 <= i < |accounts| ==> state.validators[i] == GenesisValidator(accounts[i]))
    && (forall i :: 0 <= i < |accounts| ==> RunsFromStart(state.validators[i], accounts[i]))
    && (forall i :: 0 <= i < |accounts| ==> state.validators[i].effectiveBalance == state.balances[i] == 32_000_000_000)
    && |state.slashings| == SLASHINGS && (forall i :: 0 <= i < SLASHINGS ==> state.slashings[i] == 0)
    && AllHash(root, state.validators)
    && state.genesisValidatorsRoot == RegistryRoot(h, lengthChunk, Leaves(root, state.validators))
  }

  /** When the input makes a genesis state. */
  predicate Generates(input: Input, root: ElementRoot) {
    && ToUint64(input.genesisTime) >= input.eth1Block.timestamp
    && |input.initialValidator| <= REGISTRY_LIMIT
    && forall i :: 0 <= i < |input.initialValidator| ==> root(GenesisValidator(input.initialValidator[i])).Some?
  }

  /** For the Merge fork the program leaves the state nil, here None. */
  method GenerateGenesis(input: Input, root: ElementRoot, h: Hash, lengthChunk: nat -> Chunk)
    returns (r: Result<Option<BeaconState>>)
    ensures r.Ok? <==> Generates(input, root)
    ensures r.Ok? ==> (r.value.None? <==> input.fork == Merge)
    ensures r.Ok? && r.value.Some? ==>
      var state := r.value.value;
      WellFormed(state, input.initialValidator, root, h, lengthChunk) && TakenFrom(state, input)
  {
    if ToUint64(input.genesisTime) < input.eth1Block.timestamp {
      return Err("low timestamp");
    }
    var accounts := input.initialValidator;
    var validators: seq<Validator> := [];
    var balances: seq<nat> := [];
    for i := 0 to |accounts|
      invariant |validators| == |balances| == i
      invariant forall j :: 0 <= j < i ==> validators[j] == GenesisValidator(accounts[j])
      invariant forall j :: 0 <= j < i ==> balances[j] == MIN_VALIDATOR_BALANCE
    {
      validators := validators + [GenesisValidator(accounts[i])];
      balances := balances + [MIN_VALIDATOR_BALANCE];
    }
    var genesisValidatorRoot := HashTreeRoot(validators, root, h, lengthChunk);
    if genesisValidatorRoot.Err? {
      assert !AllHash(root, validators) || |validators| > REGISTRY_LIMIT;
      return Err(genesisValidatorRoot.error);
    }
    var slashings: seq<nat> := [];
    for i := 0 to SLASHINGS
      invariant |slashings| == i && forall j :: 0 <= j < i ==> slashings[j] == 0
    {
      slashings := slashings + [0];
    }
    var state := BeaconState(input.fork, ToUint64(input.genesisTime), genesisValidatorRoot.value, input.forkVersion,
                             input.eth1Block.hash, validators, balances, slashings);
    r := Ok(if input.fork == Merge then None else Some(state));
  }

  // ---------- tranches and registry ----------

  function Flatten(tranches: seq<seq<Account>>): seq<Account> {
    if tranches == [] then [] else Flatten(tranches[..|tranches| - 1]) + tranches[|tranches| - 1]
  }

  lemma FlattenStep(tranches: seq<seq<Account>>, i: nat)
    requires i < |tranches|
    ensures Flatten(tranches[..i + 1]) == Flatten(tranches[..i]) + tranches[i]
  {
    assert tranches[..i + 1][..i] == tranches[..i];
  }

  predicate AllApart(tranches: seq<seq<Account>>) {
    && (forall t :: 0 <= t < |tranches| ==> Distinct(tranches[t]))
    && forall t, u :: 0 <= t < u < |tranches| ==> PubKeys(tranches[t]) !! PubKeys(tranches[u])
  }

  ghost predicate KeyOfSome(tranches: seq<seq<Account>>, p: Bytes) {
    exists t :: 0 <= t < |tranches| && p in PubKeys(tranches[t])
  }

  /** The keys of the collected accounts are those of the tranches. */
  lemma {:induction false} FlattenKeys(tranches: seq<seq<Account>>, p: Bytes)
    ensures p in PubKeys(Flatten(tranches)) <==> KeyOfSome(tranches, p)
  {
    if tranches != [] {
      var last := |tranches| - 1;
      FlattenKeys(tranches[..last], p);
      KeysOfBoth(Flatten(tranches[..last]), tranches[last]);
      if KeyOfSome(tranches[..last], p) {
        var t :| 0 <= t < last && p in PubKeys(tranches[..last][t]);
        assert p in PubKeys(tranches[t]);
      }
    }
  }

  /** And different if those are. */
  lemma {:induction false} FlattenDistinct(tranches: seq<seq<Account>>)
    requires AllApart(tranches)
    ensures Distinct(Flatten(tranches))
  {
    if tranches != [] {
      var last := |tranches| - 1;
      var init := tranches[..last];
      FlattenDistinct(init);
      forall p | p in PubKeys(Flatten(init))
        ensures p !in PubKeys(tranches[last])
      {
        FlattenKeys(init, p);
        var t :| 0 <= t < last && p in PubKeys(init[t]);
        assert PubKeys(tranches[t]) !! PubKeys(tranches[last]);
      }
      DistinctBoth(Flatten(init), tranches[last]);
    }
  }

  lemma KeysOfBoth(a: seq<Account>, b: seq<Account>)
    ensures PubKeys(a + b) == PubKeys(a) + PubKeys(b)
  {
    forall p | p in PubKeys(a) + PubKeys(b)
      ensures p in PubKeys(a + b)
    {
      if p in PubKeys(a) {
        var i :| 0 <= i < |a| && a[i].bls.pub == p;
        assert (a + b)[i].bls.pub == p;
      } else {
        var i :| 0 <= i < |b| && b[i].bls.pub == p;
        assert (a + b)[|a| + i].bls.pub == p;
      }
    }
  }

  lemma DistinctBoth(a: seq<Account>, b: seq<Account>)
    requires Distinct(a) && Distinct(b) && PubKeys(a) !! PubKeys(b)
    ensures Distinct(a + b)
  {
    var all := a + b;
    forall i, j | 0 <= i < j < |all|
      ensures all[i].bls.pub != all[j].bls.pub
    {
      assert i < |a| ==> all[i].bls.pub in PubKeys(a);
      assert j >= |a| ==> all[j].bls.pub in PubKeys(b);
    }
  }

  lemma {:induction false} FlattenLength(tranches: seq<seq<Account>>, k: nat)
    requires forall t :: 0 <= t < |tranches| ==> |tranches[t]| == k
    ensures |Flatten(tranches)| == |tranches| * k
  {
    if tranches != [] {
      FlattenLength(tranches[..|tranches| - 1], k);
      assert |tranches| * k == (|tranches| - 1) * k + k;
    }
  }

  lemma {:induction false} FlattenAt(tranches: seq<seq<Account>>, k: nat, t: nat, j: nat)
    requires forall t :: 0 <= t < |tranches| ==> |tranches[t]| == k
    requires t < |tranches| && j < k
    ensures t * k + j < |Flatten(tranches)| && Flatten(tranches)[t * k + j] == tranches[t][j]
  {
    var last := |tranches| - 1;
    FlattenLength(tranches[..last], k);
    if t < last {
      FlattenAt(tranches[..last], k, t, j);
    }
  }

  /** With k accounts a tranche, account i of the registry is account i mod k of tranche i div k. */
  lemma FlattenPartitions(tranches: seq<seq<Account>>, k: nat, i: nat) returns (t: nat, j: nat)
    requires forall t :: 0 <= t < |tranches| ==> |tranches[t]| == k
    requires i < |Flatten(tranches)|
    ensures k > 0 && t == i / k && j == i % k
    ensures t < |tranches| && j < k && Flatten(tranches)[i] == tranches[t][j]
  {
    FlattenLength(tranches, k);
    DivisionBound(i, k, |tranches|);
    t, j := i / k, i % k;
    FlattenAt(tranches, k, t, j);
  }

  lemma DivisionBound(i: nat, k: nat, n: nat)
    requires k > 0 && i < n * k
    ensures i / k < n && i == (i / k) * k + i % k
  {
    FactorBound(i / k, k, n);
  }

  lemma FactorBound(a: nat, k: nat, n: nat)
    requires a * k < n * k
    ensures a < n
  {
  }
}
