/** The client factories: beacon and validator containers for Lighthouse, Teku and Prysm, the validator keys they
    install, and what each client loads from the installed files. */
module Components {
  import opened Wrappers
  import opened Text
  import opened Keys
  import opened ContainerSpec

  const CLIENT_LABEL: string := "NodeClient"
  const TYPE_LABEL: string := "NodeType"
  const BEACON: string := "Beacon"
  const VALIDATOR: string := "Validator"
  const PASSWORD: string := "qwerty"
  const HTTP_PORT: nat := 9545
  const GRPC_PORT: nat := 9546
  const DATA: string := "/data"
  const CONFIG_PATH: string := "/data/config.yaml"
  const GENESIS_PATH: string := "/data/genesis.ssz"

  /** The client enumeration; a request may also carry a number outside it. */
  datatype NodeClient = OtherClient | Prysm | Teku | Lighthouse | Unrecognized(number: int)

  function ClientName(c: NodeClient): string {
    match c
    case OtherClient => "OtherClient"
    case Prysm => "Prysm"
    case Teku => "Teku"
    case Lighthouse => "Lighthouse"
    case Unrecognized(n) => SignedDecimal(n)
  }

  /** The clients both factory maps have an entry for. */
  predicate Supported(c: NodeClient) {
    c.Prysm? || c.Teku? || c.Lighthouse?
  }

  lemma ClientNameIdentifies(c: NodeClient, d: NodeClient)
    requires Supported(c) && ClientName(c) == ClientName(d)
    ensures c == d
  {
    if d.Unrecognized? {
      SignedDecimalStart(d.number);
    }
  }

  function Addr(n: NodeData, port: nat): string {
    "http://" + n.ip + ":" + Decimal(port)
  }

  datatype BeaconConfig = BeaconConfig(spec: string, eth1: string, bootnode: string, genesisSSZ: string)

  datatype ValidatorConfig = ValidatorConfig(accounts: seq<Account>, spec: string, beacon: NodeData)

  function ClientLabels(c: NodeClient, typ: string): map<string, string> {
    map[CLIENT_LABEL := ClientName(c)][TYPE_LABEL := typ]
  }

  // ---------- keys in a directory: Lighthouse and Teku ----------

  /** Key files and password files that belong together share the name between prefix and suffix. */
  datatype Layout = Layout(keyPrefix: string, keySuffix: string, passPrefix: string, passSuffix: string)

  const LIGHTHOUSE_LAYOUT: Layout :=
    Layout("/data/node/validators/", "/voting-keystore.json", "/data/node/secrets/", "")
  const TEKU_LAYOUT: Layout := Layout("/data/keys/", ".json", "/data/pass/", ".txt")

  function KeyPath(l: Layout, name: string): string {
    l.keyPrefix + name + l.keySuffix
  }

  function PassPath(l: Layout, name: string): string {
    l.passPrefix + name + l.passSuffix
  }

  /** A key file and a password file for each account, in this order. */
  function KeyFiles(l: Layout, base: map<string, Content>, accounts: seq<Account>, names: seq<string>): map<string, Content>
    requires |accounts| == |names|
  {
    if accounts == [] then base
    else
      var last := |accounts| - 1;
      AddKeyFiles(l, KeyFiles(l, base, accounts[..last], names[..last]), names[last], accounts[last].bls)
  }

  function AddKeyFiles(l: Layout, files: map<string, Content>, name: string, key: BlsKey): map<string, Content> {
    files[KeyPath(l, name) := Keystore(key, PASSWORD)][PassPath(l, name) := Plain(PASSWORD)]
  }

  predicate IsKeyPath(l: Layout, path: string) {
    && |path| >= |l.keyPrefix| + |l.keySuffix|
    && path[..|l.keyPrefix|] == l.keyPrefix
    && path[|path| - |l.keySuffix|..] == l.keySuffix
  }

  function NameIn(l: Layout, path: string): string
    requires IsKeyPath(l, path)
  {
    path[|l.keyPrefix|..|path| - |l.keySuffix|]
  }

  /** A client opens a key file with the password in the file of the same name. */
  predicate Opens(l: Layout, files: map<string, Content>, path: string) {
    && path in files && files[path].Keystore? && IsKeyPath(l, path)
    && PassPath(l, NameIn(l, path)) in files
    && files[PassPath(l, NameIn(l, path))] == Plain(files[path].password)
  }

  /** The keys a client finds in such a directory. */
  function LoadedFromDirectory(l: Layout, files: map<string, Content>): set<BlsKey> {
    set path | path in files && Opens(l, files, path) :: files[path].key
  }

  /** Key paths and password paths differ, told apart by the character at d. */
  predicate Separate(l: Layout, d: nat) {
    d < |l.keyPrefix| && d < |l.passPrefix| && l.keyPrefix[d] != l.passPrefix[d]
  }

  lemma PathsIdentify(l: Layout, a: string, b: string)
    ensures IsKeyPath(l, KeyPath(l, a)) && NameIn(l, KeyPath(l, a)) == a
    ensures KeyPath(l, a) == KeyPath(l, b) ==> a == b
    ensures PassPath(l, a) == PassPath(l, b) ==> a == b
  {
    var k := KeyPath(l, a);
    assert k[..|l.keyPrefix|] == l.keyPrefix && k[|k| - |l.keySuffix|..] == l.keySuffix;
    assert k[|l.keyPrefix|..|k| - |l.keySuffix|] == a;
    var k' := KeyPath(l, b);
    assert k'[|l.keyPrefix|..|k'| - |l.keySuffix|] == b;
    var p, p' := PassPath(l, a), PassPath(l, b);
    assert p[|l.passPrefix|..|p| - |l.passSuffix|] == a;
    assert p'[|l.passPrefix|..|p'| - |l.passSuffix|] == b;
  }

  lemma PathsSeparate(l: Layout, d: nat, a: string, b: string)
    requires Separate(l, d)
    ensures KeyPath(l, a) != PassPath(l, b)
  {
    assert KeyPath(l, a)[d] == l.keyPrefix[d] && PassPath(l, b)[d] == l.passPrefix[d];
  }

  ghost predicate DistinctNames(names: seq<string>) {
    forall i, j :: 0 <= i < j < |names| ==> names[i] != names[j]
  }

  predicate Installed(l: Layout, files: map<string, Content>, name: string, key: BlsKey) {
    && KeyPath(l, name) in files && files[KeyPath(l, name)] == Keystore(key, PASSWORD)
    && PassPath(l, name) in files && files[PassPath(l, name)] == Plain(PASSWORD)
  }

  lemma AddKeepsInstalled(l: Layout, d: nat, files: map<string, Content>, name: string, key: BlsKey, other: string, otherKey: BlsKey)
    requires Separate(l, d) && (other == name ==> otherKey == key)
    requires other != name ==> Installed(l, files, other, otherKey)
    ensures Installed(l, AddKeyFiles(l, files, name, key), other, otherKey)
  {
    PathsIdentify(l, other, name);
    PathsSeparate(l, d, other, name);
    PathsSeparate(l, d, name, other);
    PathsSeparate(l, d, name, name);
  }

  lemma {:induction false} KeyFilesInstalled(l: Layout, d: nat, base: map<string, Content>, accounts: seq<Account>,
                                             names: seq<string>, i: nat)
    requires |accounts| == |names| && DistinctNames(names) && Separate(l, d) && i < |names|
    ensures Installed(l, KeyFiles(l, base, accounts, names), names[i], accounts[i].bls)
  {
    var last := |accounts| - 1;
    if i < last {
      KeyFilesInstalled(l, d, base, accounts[..last], names[..last], i);
    }
    AddKeepsInstalled(l, d, KeyFiles(l, base, accounts[..last], names[..last]), names[last], accounts[last].bls,
                      names[i], accounts[i].bls);
  }

  ghost predicate NamedFile(l: Layout, names: seq<string>, path: string) {
    exists i :: 0 <= i < |names| && (path == KeyPath(l, names[i]) || path == PassPath(l, names[i]))
  }

  /** Every file is one of the base or belongs to an account. */
  lemma {:induction false} KeyFilesOrigin(l: Layout, base: map<string, Content>, accounts: seq<Account>,
                                          names: seq<string>, path: string)
    requires |accounts| == |names| && path in KeyFiles(l, base, accounts, names)
    ensures (path in base && KeyFiles(l, base, accounts, names)[path] == base[path]) || NamedFile(l, names, path)
  {
    if accounts != [] {
      var last := |accounts| - 1;
      if path != KeyPath(l, names[last]) && path != PassPath(l, names[last]) {
        KeyFilesOrigin(l, base, accounts[..last], names[..last], path);
        if NamedFile(l, names[..last], path) {
          var i :| 0 <= i < last && (path == KeyPath(l, names[..last][i]) || path == PassPath(l, names[..last][i]));
          assert names[i] == names[..last][i];
        }
      }
    }
  }

  ghost predicate NoKeystores(base: map<string, Content>) {
    forall p :: p in base ==> base[p].Plain?
  }

  lemma OpenedKeyIsAccounts(l: Layout, d: nat, base: map<string, Content>, accounts: seq<Account>, names: seq<string>, path: string)
    requires |accounts| == |names| && DistinctNames(names) && Separate(l, d) && NoKeystores(base)
    requires Opens(l, KeyFiles(l, base, accounts, names), path)
    ensures KeyFiles(l, base, accounts, names)[path].key in BlsKeys(accounts)
  {
    KeyFilesOrigin(l, base, accounts, names, path);
    var i :| 0 <= i < |names| && (path == KeyPath(l, names[i]) || path == PassPath(l, names[i]));
    KeyFilesInstalled(l, d, base, accounts, names, i);
  }

  lemma AccountKeyIsOpened(l: Layout, d: nat, base: map<string, Content>, accounts: seq<Account>, names: seq<string>, i: nat)
    requires |accounts| == |names| && DistinctNames(names) && Separate(l, d) && i < |accounts|
    ensures accounts[i].bls in LoadedFromDirectory(l, KeyFiles(l, base, accounts, names))
  {
    var files := KeyFiles(l, base, accounts, names);
    KeyFilesInstalled(l, d, base, accounts, names, i);
    PathsIdentify(l, names[i], names[i]);
    assert Opens(l, files, KeyPath(l, names[i]));
  }

  /** The client loads exactly the accounts' keys: none is overwritten, dropped or added. */
  lemma DirectoryHoldsKeys(l: Layout, d: nat, base: map<string, Content>, accounts: seq<Account>, names: seq<string>)
    requires |accounts| == |names| && DistinctNames(names) && Separate(l, d) && NoKeystores(base)
    ensures LoadedFromDirectory(l, KeyFiles(l, base, accounts, names)) == BlsKeys(accounts)
  {
    var files := KeyFiles(l, base, accounts, names);
    var loaded := LoadedFromDirectory(l, files);
    forall i | 0 <= i < |accounts|
      ensures accounts[i].bls in loaded
    {
      AccountKeyIsOpened(l, d, base, accounts, names, i);
    }
    forall p | p in files && Opens(l, files, p)
      ensures files[p].key in BlsKeys(accounts)
    {
      OpenedKeyIsAccounts(l, d, base, accounts, names, p);
    }
  }

  // ---------- names of the key files ----------

  function PubName(pub: Bytes): string {
    "0x" + HexEncode(pub)
  }

  function PubNames(accounts: seq<Account>): seq<string> {
    seq(|accounts|, i requires 0 <= i < |accounts| => PubName(accounts[i].bls.pub))
  }

  function IndexName(i: nat): string {
    "account_" + Decimal(i)
  }

  function IndexNames(n: nat): seq<string> {
    seq(n, i requires 0 <= i < n => IndexName(i))
  }

  lemma PubNamesDistinct(accounts: seq<Account>)
    requires Distinct(accounts)
    ensures DistinctNames(PubNames(accounts))
  {
    forall i, j | 0 <= i < j < |accounts|
      ensures PubName(accounts[i].bls.pub) != PubName(accounts[j].bls.pub)
    {
      var a, b := accounts[i].bls.pub, accounts[j].bls.pub;
      assert PubName(a)[2..] == HexEncode(a) && PubName(b)[2..] == HexEncode(b);
      if HexEncode(a) == HexEncode(b) {
        HexInjective(a, b);
      }
    }
  }

  lemma IndexNamesDistinct(n: nat)
    ensures DistinctNames(IndexNames(n))
  {
    forall i, j | 0 <= i < j < n
      ensures IndexName(i) != IndexName(j)
    {
      assert IndexName(i)[8..] == Decimal(i) && IndexName(j)[8..] == Decimal(j);
      if Decimal(i) == Decimal(j) {
        DecimalInjective(i, j);
      }
    }
  }

  // ---------- keys in one file: Prysm ----------

  const PRYSM_KEYS: string := "/data/direct/accounts/all-accounts.keystore.json"
  const PRYSM_PASSWORD: string := "/data/wallet-password.txt"

  function Marshalling(accounts: seq<Account>): seq<BlsKey> {
    if accounts == [] then []
    else
      var last := accounts[|accounts| - 1].bls;
      Marshalling(accounts[..|accounts| - 1]) + if last.prv.Some? then [last] else []
  }

  lemma {:induction false} MarshallingKeys(accounts: seq<Account>)
    ensures forall k :: k in Marshalling(accounts) <==> k in BlsKeys(accounts) && k.prv.Some?
  {
    if accounts != [] {
      var init := accounts[..|accounts| - 1];
      MarshallingKeys(init);
      assert BlsKeys(accounts) == BlsKeys(init) + {accounts[|accounts| - 1].bls};
    }
  }

  function Publics(keys: seq<BlsKey>): seq<Bytes> {
    seq(|keys|, i requires 0 <= i < |keys| => keys[i].pub)
  }

  function Privates(keys: seq<BlsKey>): seq<Bytes>
    requires forall i :: 0 <= i < |keys| ==> keys[i].prv.Some?
  {
    seq(|keys|, i requires 0 <= i < |keys| => keys[i].prv.value)
  }

  /** The store whose two lists the client pairs up by position. */
  class AccountStore {
    var privateKeys: seq<Bytes>
    var publicKeys: seq<Bytes>

    constructor ()
      ensures privateKeys == [] && publicKeys == []
    {
      privateKeys, publicKeys := [], [];
    }

    /** Adds both halves of the key or, when marshalling fails, neither. */
    method AddKey(key: BlsKey) returns (ok: bool)
      modifies this
      ensures ok <==> key.prv.Some?
      ensures privateKeys == old(privateKeys) + if ok then [key.prv.value] else []
      ensures publicKeys == old(publicKeys) + if ok then [key.pub] else []
    {
      if key.prv.None? {
        return false;
      }
      privateKeys := privateKeys + [key.prv.value];
      publicKeys := publicKeys + [key.pub];
      return true;
    }
  }

  /** The keys in Prysm's wallet, opened with the password of the other file. */
  function PrysmLoaded(files: map<string, Content>, wallet: string, password: string): set<BlsKey> {
    if wallet in files && files[wallet].KeyList? && password in files
       && files[password] == Plain(files[wallet].password)
       && |files[wallet].privateKeys| == |files[wallet].publicKeys|
    then set i | 0 <= i < |files[wallet].publicKeys| ::
           BlsKey(files[wallet].publicKeys[i], Some(files[wallet].privateKeys[i]))
    else {}
  }

  lemma {:induction false} MarshallingAllSome(accounts: seq<Account>)
    ensures forall i :: 0 <= i < |Marshalling(accounts)| ==> Marshalling(accounts)[i].prv.Some?
  {
    if accounts != [] {
      MarshallingAllSome(accounts[..|accounts| - 1]);
    }
  }

  function PrysmKeyList(accounts: seq<Account>): Content {
    MarshallingAllSome(accounts);
    KeyList(Privates(Marshalling(accounts)), Publics(Marshalling(accounts)), PASSWORD)
  }

  // ---------- the containers ----------

  function TrimPrefix(s: string, prefix: string): string {
    if prefix <= s then s[|prefix|..] else s
  }

  function Repository(c: NodeClient, typ: string): string {
    match c
    case Lighthouse => "sigp/lighthouse"
    case Teku => "consensys/teku"
    case _ => if typ == BEACON then "gcr.io/prysmaticlabs/prysm/beacon-chain" else "gcr.io/prysmaticlabs/prysm/validator"
  }

  function Tag(c: NodeClient): string {
    match c
    case Lighthouse => "v2.2.1"
    case Teku => "22.4.0"
    case _ => "v2.0.6"
  }

  const HTTP: string := "{{ Port \"eth2.http\" }}"
  const P2P: string := "{{ Port \"eth2.p2p\" }}"
  const GRPC: string := "{{ Port \"eth2.prysm.grpc\" }}"

  /** The command of a beacon container; the ports are filled in when it is deployed. */
  function BeaconCmd(c: NodeClient, cfg: BeaconConfig): seq<string> {
    match c
    case Lighthouse =>
      ["lighthouse", "beacon_node", "--http", "--http-address", "0.0.0.0", "--http-port", HTTP, "--eth1-endpoints", cfg.eth1,
       "--target-peers", "1", "--testnet-dir", "/data", "--http-allow-sync-stalled", "--debug-level", "trace",
       "--subscribe-all-subnets", "--staking", "--port", P2P, "--enr-address", "127.0.0.1", "--enr-udp-port", P2P,
       "--enr-tcp-port", P2P, "--disable-packet-filter", "--enable-private-discovery"]
    case Teku =>
      ["--logging", "debug", "--eth1-endpoint", cfg.eth1, "--rest-api-enabled", "--network", "/data/config.yaml",
       "--initial-state", "/data/genesis.ssz", "--rest-api-port", HTTP, "--log-file", "/data/logs.txt",
       "--p2p-advertised-ip", "0.0.0.0", "--p2p-port", P2P]
      + if cfg.bootnode != "" then ["--p2p-discovery-bootnodes", cfg.bootnode] else []
    case _ =>
      ["--verbosity", "debug", "--http-web3provider", cfg.eth1, "--contract-deployment-block", "0", "--min-sync-peers", "1",
       "--rpc-host", "0.0.0.0", "--rpc-port", GRPC, "--grpc-gateway-host", "0.0.0.0", "--grpc-gateway-port", HTTP,
       "--chain-config-file", "/data/config.yaml", "--genesis-state", "/data/genesis.ssz", "--accept-terms-of-use",
       "--datadir", "/data/eth2", "--force-clear-db", "--minimum-peers-per-subnet", "0", "--p2p-tcp-port", P2P,
       "--p2p-udp-port", P2P]
      + if cfg.bootnode != "" then ["--bootstrap-node", cfg.bootnode] else []
  }

  function BeaconFiles(c: NodeClient, cfg: BeaconConfig): map<string, Content> {
    var files := map[CONFIG_PATH := Plain(cfg.spec)][GENESIS_PATH := Plain(cfg.genesisSSZ)];
    if !c.Lighthouse? then files
    else
      var files' := files["/data/deploy_block.txt" := Plain("0")];
      if cfg.bootnode == "" then files' else files'["/data/boot_enr.yaml" := Plain("- " + cfg.bootnode + "\n")]
  }

  function User(c: NodeClient): string {
    if c.Teku? then "0:0" else ""
  }

  function BeaconSpec(c: NodeClient, cfg: BeaconConfig): SpecData {
    SpecData("", Repository(c, BEACON), Tag(c), BeaconCmd(c, cfg), [DATA], BeaconFiles(c, cfg),
             ClientLabels(c, BEACON), User(c))
  }

  /** The flag by which a validator client is told its beacon node. */
  function EndpointFlag(c: NodeClient): string {
    match c
    case Lighthouse => "--beacon-nodes"
    case Teku => "--beacon-node-api-endpoint"
    case _ => "--beacon-rpc-provider"
  }

  function Endpoint(c: NodeClient, beacon: NodeData): string {
    if c.Prysm? then TrimPrefix(Addr(beacon, GRPC_PORT), "http://") else Addr(beacon, HTTP_PORT)
  }

  /** The command of a validator container. */
  function ValidatorCmd(c: NodeClient, beacon: NodeData): seq<string> {
    match c
    case Lighthouse =>
      ["lighthouse", "vc", "--debug-level", "debug", "--datadir", "/data/node", "--beacon-nodes", Endpoint(c, beacon),
       "--testnet-dir", "/data", "--init-slashing-protection"]
    case Teku =>
      ["vc", "--beacon-node-api-endpoint", Endpoint(c, beacon), "--data-path", "/data", "--network", "/data/config.yaml",
       "--validator-keys", "/data/keys:/data/pass"]
    case _ =>
      ["--verbosity", "debug", "--accept-terms-of-use", "--wallet-dir", "/data", "--wallet-password-file",
       "/data/wallet-password.txt", "--beacon-rpc-provider", Endpoint(c, beacon), "--chain-config-file",
       "/data/config.yaml"]
  }

  function ValidatorFiles(c: NodeClient, cfg: ValidatorConfig): map<string, Content> {
    match c
    case Lighthouse =>
      KeyFiles(LIGHTHOUSE_LAYOUT, map[CONFIG_PATH := Plain(cfg.spec)]["/data/deploy_block.txt" := Plain("0")],
               cfg.accounts, PubNames(cfg.accounts))
    case Teku =>
      KeyFiles(TEKU_LAYOUT, map[CONFIG_PATH := Plain(cfg.spec)], cfg.accounts, IndexNames(|cfg.accounts|))
    case _ =>
      map[PRYSM_KEYS := PrysmKeyList(cfg.accounts)][PRYSM_PASSWORD := Plain(PASSWORD)][CONFIG_PATH := Plain(cfg.spec)]
  }

  function ValidatorSpec(c: NodeClient, cfg: ValidatorConfig): SpecData {
    SpecData("", Repository(c, VALIDATOR), Tag(c), ValidatorCmd(c, cfg.beacon), [DATA], ValidatorFiles(c, cfg),
             ClientLabels(c, VALIDATOR), User(c))
  }

  /** Whether the key encryptions of a validator container all succeed. */
  predicate KeystoresOk(c: NodeClient, n: nat, keystoreOk: nat -> bool) {
    if c.Prysm? then keystoreOk(0) else forall i :: 0 <= i < n ==> keystoreOk(i)
  }

  method NewBeacon(c: NodeClient, cfg: BeaconConfig) returns (spec: Spec)
    requires Supported(c)
    ensures fresh(spec) && spec.Data() == BeaconSpec(c, cfg)
  {
    spec := new Spec();
    spec.WithLabel(CLIENT_LABEL, ClientName(c));
    spec.WithLabel(TYPE_LABEL, BEACON);
    spec.WithContainer(Repository(c, BEACON));
    spec.WithTag(Tag(c));
    spec.WithCmd(BeaconCmd(c, cfg));
    spec.WithMount(DATA);
    spec.WithFile(CONFIG_PATH, Plain(cfg.spec));
    spec.WithFile(GENESIS_PATH, Plain(cfg.genesisSSZ));
    if c.Teku? {
      spec.WithUser("0:0");
    }
    if c.Lighthouse? {
      spec.WithFile("/data/deploy_block.txt", Plain("0"));
      if cfg.bootnode != "" {
        spec.WithFile("/data/boot_enr.yaml", Plain("- " + cfg.bootnode + "\n"));
      }
    }
  }

  lemma KeyFilesStep(l: Layout, base: map<string, Content>, accounts: seq<Account>, names: seq<string>, i: nat)
    requires i < |accounts| == |names|
    ensures KeyFiles(l, base, accounts[..i + 1], names[..i + 1])
            == AddKeyFiles(l, KeyFiles(l, base, accounts[..i], names[..i]), names[i], accounts[i].bls)
  {
    assert accounts[..i + 1][..i] == accounts[..i] && names[..i + 1][..i] == names[..i];
  }

  /** The loop over the accounts of a Lighthouse container. */
  method AddLighthouseKeys(spec: Spec, accounts: seq<Account>, keystoreOk: nat -> bool) returns (ok: bool)
    modifies spec
    ensures ok <==> forall i :: 0 <= i < |accounts| ==> keystoreOk(i)
    ensures ok ==> spec.Data() == old(spec.Data()).(files := KeyFiles(LIGHTHOUSE_LAYOUT, old(spec.files), accounts, PubNames(accounts)))
  {
    ghost var base := spec.Data();
    ghost var names := PubNames(accounts);
    var i := 0;
    while i < |accounts|
      invariant 0 <= i <= |accounts|
      invariant forall j :: 0 <= j < i ==> keystoreOk(j)
      invariant spec.Data() == base.(files := KeyFiles(LIGHTHOUSE_LAYOUT, base.files, accounts[..i], names[..i]))
    {
      var pubStr := PubName(accounts[i].bls.pub);
      if !keystoreOk(i) {
        return false;
      }
      spec.WithFile("/data/node/validators/" + pubStr + "/voting-keystore.json", Keystore(accounts[i].bls, PASSWORD));
      spec.WithFile("/data/node/secrets/" + pubStr, Plain(PASSWORD));
      assert PassPath(LIGHTHOUSE_LAYOUT, pubStr) == "/data/node/secrets/" + pubStr;
      KeyFilesStep(LIGHTHOUSE_LAYOUT, base.files, accounts, names, i);
      i := i + 1;
    }
    assert accounts[..i] == accounts && names[..i] == names;
    return true;
  }

  method NewLighthouseValidator(cfg: ValidatorConfig, keystoreOk: nat -> bool) returns (r: Option<Spec>)
    ensures r.Some? <==> KeystoresOk(Lighthouse, |cfg.accounts|, keystoreOk)
    ensures r.Some? ==> fresh(r.value) && r.value.Data() == ValidatorSpec(Lighthouse, cfg)
  {
    var spec := new Spec();
    spec.WithLabel(CLIENT_LABEL, ClientName(Lighthouse));
    spec.WithLabel(TYPE_LABEL, VALIDATOR);
    spec.WithContainer("sigp/lighthouse");
    spec.WithTag("v2.2.1");
    spec.WithCmd(ValidatorCmd(Lighthouse, cfg.beacon));
    spec.WithMount(DATA);
    spec.WithFile(CONFIG_PATH, Plain(cfg.spec));
    spec.WithFile("/data/deploy_block.txt", Plain("0"));
    var ok := AddLighthouseKeys(spec, cfg.accounts, keystoreOk);
    return if ok then Some(spec) else None;
  }

  /** The loop over the accounts of a Teku container. */
  method AddTekuKeys(spec: Spec, accounts: seq<Account>, keystoreOk: nat -> bool) returns (ok: bool)
    modifies spec
    ensures ok <==> forall i :: 0 <= i < |accounts| ==> keystoreOk(i)
    ensures ok ==> spec.Data() == old(spec.Data()).(files := KeyFiles(TEKU_LAYOUT, old(spec.files), accounts, IndexNames(|accounts|)))
  {
    ghost var base := spec.Data();
    ghost var names := IndexNames(|accounts|);
    var i := 0;
    while i < |accounts|
      invariant 0 <= i <= |accounts|
      invariant forall j :: 0 <= j < i ==> keystoreOk(j)
      invariant spec.Data() == base.(files := KeyFiles(TEKU_LAYOUT, base.files, accounts[..i], names[..i]))
    {
      if !keystoreOk(i) {
        return false;
      }
      var name := IndexName(i);
      spec.WithFile("/data/keys/" + name + ".json", Keystore(accounts[i].bls, PASSWORD));
      spec.WithFile("/data/pass/" + name + ".txt", Plain(PASSWORD));
      KeyFilesStep(TEKU_LAYOUT, base.files, accounts, names, i);
      i := i + 1;
    }
    assert accounts[..i] == accounts && names[..i] == names;
    return true;
  }

  method NewTekuValidator(cfg: ValidatorConfig, keystoreOk: nat -> bool) returns (r: Option<Spec>)
    ensures r.Some? <==> KeystoresOk(Teku, |cfg.accounts|, keystoreOk)
    ensures r.Some? ==> fresh(r.value) && r.value.Data() == ValidatorSpec(Teku, cfg)
  {
    var spec := new Spec();
    spec.WithLabel(CLIENT_LABEL, ClientName(Teku));
    spec.WithLabel(TYPE_LABEL, VALIDATOR);
    spec.WithContainer("consensys/teku");
    spec.WithTag("22.4.0");
    spec.WithCmd(ValidatorCmd(Teku, cfg.beacon));
    spec.WithMount(DATA);
    spec.WithFile(CONFIG_PATH, Plain(cfg.spec));
    spec.WithUser("0:0");
    var ok := AddTekuKeys(spec, cfg.accounts, keystoreOk);
    return if ok then Some(spec) else None;
  }

  /** A key that fails to marshal is skipped without an error. */
  method NewPrysmValidator(cfg: ValidatorConfig, keystoreOk: nat -> bool) returns (r: Option<Spec>)
    ensures r.Some? <==> KeystoresOk(Prysm, |cfg.accounts|, keystoreOk)
    ensures r.Some? ==> fresh(r.value) && r.value.Data() == ValidatorSpec(Prysm, cfg)
  {
    var store := new AccountStore();
    MarshallingAllSome([]);
    var i := 0;
    while i < |cfg.accounts|
      invariant 0 <= i <= |cfg.accounts| && fresh(store)
      invariant PrysmKeyList(cfg.accounts[..i]) == KeyList(store.privateKeys, store.publicKeys, PASSWORD)
    {
      assert cfg.accounts[..i + 1][..i] == cfg.accounts[..i];
      MarshallingAllSome(cfg.accounts[..i]);
      MarshallingAllSome(cfg.accounts[..i + 1]);
      var ok := store.AddKey(cfg.accounts[i].bls);
      i := i + 1;
    }
    assert cfg.accounts[..i] == cfg.accounts;
    if !keystoreOk(0) {
      return None;
    }
    var spec := new Spec();
    spec.WithLabel(CLIENT_LABEL, ClientName(Prysm));
    spec.WithLabel(TYPE_LABEL, VALIDATOR);
    spec.WithContainer("gcr.io/prysmaticlabs/prysm/validator");
    spec.WithTag("v2.0.6");
    spec.WithCmd(ValidatorCmd(Prysm, cfg.beacon));
    spec.WithMount(DATA);
    spec.WithFile(PRYSM_KEYS, KeyList(store.privateKeys, store.publicKeys, PASSWORD));
    spec.WithFile(PRYSM_PASSWORD, Plain(PASSWORD));
    spec.WithFile(CONFIG_PATH, Plain(cfg.spec));
    return Some(spec);
  }

  // ---------- how the clients read their command ----------

  /** The text before and after the last separator. */
  function SplitLast(s: string, sep: char): Option<(string, string)> {
    if s == "" then None
    else if s[|s| - 1] == sep then Some((s[..|s| - 1], ""))
    else
      match SplitLast(s[..|s| - 1], sep)
      case None => None
      case Some((a, b)) => Some((a, b + [s[|s| - 1]]))
  }

  lemma {:induction false} SplitLastJoined(a: string, b: string, sep: char)
    requires sep !in b
    ensures SplitLast(a + [sep] + b, sep) == Some((a, b))
  {
    var s := a + [sep] + b;
    if b == "" {
      assert s[..|s| - 1] == a;
    } else {
      var init := b[..|b| - 1];
      SplitLastJoined(a, init, sep);
      assert s[..|s| - 1] == a + [sep] + init;
      assert b == init + [b[|b| - 1]];
    }
  }

  /** The value after the first occurrence of a flag. */
  function ValueOf(cmd: seq<string>, flag: string): Option<string> {
    if |cmd| < 2 then None else if cmd[0] == flag then Some(cmd[1]) else ValueOf(cmd[1..], flag)
  }

  lemma {:induction false} ValueAt(cmd: seq<string>, flag: string, i: nat)
    requires i + 1 < |cmd| && cmd[i] == flag && flag !in cmd[..i]
    ensures ValueOf(cmd, flag) == Some(cmd[i + 1])
  {
    if i > 0 {
      assert cmd[0] in cmd[..i];
      assert cmd[1..][..i - 1] == cmd[..i][1..];
      ValueAt(cmd[1..], flag, i - 1);
    }
  }

  /** Where Lighthouse and Teku look for key files and passwords. */
  function KeyDirectory(c: NodeClient, cmd: seq<string>): Option<Layout> {
    match c
    case Lighthouse =>
      (match ValueOf(cmd, "--datadir")
       case Some(dir) => Some(Layout(dir + "/validators/", "/voting-keystore.json", dir + "/secrets/", ""))
       case None => None)
    case Teku =>
      (match ValueOf(cmd, "--validator-keys")
       case Some(dirs) =>
         (match SplitLast(dirs, ':')
          case Some((keys, pass)) => Some(Layout(keys + "/", ".json", pass + "/", ".txt"))
          case None => None)
       case None => None)
    case _ => None
  }

  /** Prysm's key list and the file with its password. */
  function Wallet(cmd: seq<string>): Option<(string, string)> {
    match (ValueOf(cmd, "--wallet-dir"), ValueOf(cmd, "--wallet-password-file"))
    case (Some(dir), Some(password)) => Some((dir + "/direct/accounts/" + "all-accounts.keystore.json", password))
    case _ => None
  }

  /** The keys the client of a validator container runs: its command says where it looks, its files what it finds. */
  function LoadedKeys(c: NodeClient, spec: SpecData): set<BlsKey> {
    if c.Lighthouse? || c.Teku? then
      match KeyDirectory(c, spec.cmd)
      case Some(l) => LoadedFromDirectory(l, spec.files)
      case None => {}
    else
      match Wallet(spec.cmd)
      case Some((wallet, password)) => PrysmLoaded(spec.files, wallet, password)
      case None => {}
  }

  /** Told apart by length, first character or character k. */
  predicate Unlike(a: string, b: string, k: nat) {
    |a| != |b| || (k < |a| && (a[0] != b[0] || a[k] != b[k]))
  }

  lemma FlagAt(cmd: seq<string>, flag: string, i: nat, k: nat)
    requires i + 1 < |cmd| && cmd[i] == flag && forall j :: 0 <= j < i ==> Unlike(cmd[j], flag, k)
    ensures ValueOf(cmd, flag) == Some(cmd[i + 1])
  {
    assert forall j :: 0 <= j < i ==> cmd[j] != flag;
    ValueAt(cmd, flag, i);
  }

  lemma LighthouseDirectory(beacon: NodeData)
    ensures KeyDirectory(Lighthouse, ValidatorCmd(Lighthouse, beacon)) == Some(LIGHTHOUSE_LAYOUT)
  {
    FlagAt(ValidatorCmd(Lighthouse, beacon), "--datadir", 4, 2);
    assert "/data/node" + "/validators/" == LIGHTHOUSE_LAYOUT.keyPrefix;
    assert "/data/node" + "/secrets/" == LIGHTHOUSE_LAYOUT.passPrefix;
  }

  lemma TekuDirectory(beacon: NodeData)
    ensures KeyDirectory(Teku, ValidatorCmd(Teku, beacon)) == Some(TEKU_LAYOUT)
  {
    assert Endpoint(Teku, beacon)[0] == 'h';
    FlagAt(ValidatorCmd(Teku, beacon), "--validator-keys", 7, 2);
    SplitLastJoined("/data/keys", "/data/pass", ':');
    assert "/data/keys" + [':'] + "/data/pass" == "/data/keys:/data/pass";
    assert "/data/keys" + "/" == TEKU_LAYOUT.keyPrefix && "/data/pass" + "/" == TEKU_LAYOUT.passPrefix;
  }

  lemma WalletPath()
    ensures "/data" + "/direct/accounts/" + "all-accounts.keystore.json" == PRYSM_KEYS
  {
    assert "/data" + "/direct/accounts/" == "/data/direct/accounts/";
    assert "/data/direct/accounts/" + "all-accounts.keystore.json" == PRYSM_KEYS;
  }

  lemma WalletDirPassed(beacon: NodeData)
    ensures ValueOf(ValidatorCmd(Prysm, beacon), "--wallet-dir") == Some("/data")
  {
    FlagAt(ValidatorCmd(Prysm, beacon), "--wallet-dir", 3, 2);
  }

  lemma WalletPasswordPassed(beacon: NodeData)
    ensures ValueOf(ValidatorCmd(Prysm, beacon), "--wallet-password-file") == Some(PRYSM_PASSWORD)
  {
    FlagAt(ValidatorCmd(Prysm, beacon), "--wallet-password-file", 5, 2);
  }

  lemma PrysmWallet(beacon: NodeData)
    ensures Wallet(ValidatorCmd(Prysm, beacon)) == Some((PRYSM_KEYS, PRYSM_PASSWORD))
  {
    WalletDirPassed(beacon);
    WalletPasswordPassed(beacon);
    WalletPath();
  }

  // ---------- what the containers guarantee ----------

  lemma PrysmHoldsKeys(cfg: ValidatorConfig)
    ensures PrysmLoaded(ValidatorFiles(Prysm, cfg), PRYSM_KEYS, PRYSM_PASSWORD) == set k | k in BlsKeys(cfg.accounts) && k.prv.Some?
  {
    var keys := Marshalling(cfg.accounts);
    var files := ValidatorFiles(Prysm, cfg);
    MarshallingAllSome(cfg.accounts);
    MarshallingKeys(cfg.accounts);
    assert PRYSM_KEYS[6] != PRYSM_PASSWORD[6] && PRYSM_KEYS[6] != CONFIG_PATH[6] && PRYSM_PASSWORD[6] != CONFIG_PATH[6];
    assert files[PRYSM_KEYS] == KeyList(Privates(keys), Publics(keys), PASSWORD);
    forall k
      ensures k in PrysmLoaded(files, PRYSM_KEYS, PRYSM_PASSWORD) <==> k in keys
    {
      if k in keys {
        var i :| 0 <= i < |keys| && keys[i] == k;
        assert k == BlsKey(Publics(keys)[i], Some(Privates(keys)[i]));
      }
    }
  }

  /** A validator container runs exactly the keys of its accounts. For Prysm, which skips keys it cannot marshal without
      reporting it, this holds exactly when every key marshals. */
  lemma ContainerRunsItsKeys(c: NodeClient, cfg: ValidatorConfig)
    requires Supported(c) && Distinct(cfg.accounts)
    ensures LoadedKeys(c, ValidatorSpec(c, cfg)) == BlsKeys(cfg.accounts) <==> !c.Prysm? || AllMarshal(cfg.accounts)
  {
    match c
    case Lighthouse =>
      LighthouseDirectory(cfg.beacon);
      PubNamesDistinct(cfg.accounts);
      assert LIGHTHOUSE_LAYOUT.keyPrefix[11] != LIGHTHOUSE_LAYOUT.passPrefix[11];
      DirectoryHoldsKeys(LIGHTHOUSE_LAYOUT, 11, map[CONFIG_PATH := Plain(cfg.spec)]["/data/deploy_block.txt" := Plain("0")],
                         cfg.accounts, PubNames(cfg.accounts));
    case Teku =>
      TekuDirectory(cfg.beacon);
      IndexNamesDistinct(|cfg.accounts|);
      assert TEKU_LAYOUT.keyPrefix[6] != TEKU_LAYOUT.passPrefix[6];
      DirectoryHoldsKeys(TEKU_LAYOUT, 6, map[CONFIG_PATH := Plain(cfg.spec)], cfg.accounts, IndexNames(|cfg.accounts|));
    case Prysm =>
      PrysmRunsItsKeys(cfg);
  }

  lemma PrysmRunsItsKeys(cfg: ValidatorConfig)
    ensures LoadedKeys(Prysm, ValidatorSpec(Prysm, cfg)) == set k | k in BlsKeys(cfg.accounts) && k.prv.Some?
    ensures LoadedKeys(Prysm, ValidatorSpec(Prysm, cfg)) == BlsKeys(cfg.accounts) <==> AllMarshal(cfg.accounts)
  {
    PrysmWallet(cfg.beacon);
    PrysmHoldsKeys(cfg);
    if !AllMarshal(cfg.accounts) {
      var i :| 0 <= i < |cfg.accounts| && cfg.accounts[i].bls.prv.None?;
      assert cfg.accounts[i].bls in BlsKeys(cfg.accounts);
    } else {
      assert forall k :: k in BlsKeys(cfg.accounts) ==> k.prv.Some?;
    }
  }

  /** A key that does not marshal makes a Prysm container run without it although its construction succeeds. */
  lemma PrysmDropsKey(cfg: ValidatorConfig, key: BlsKey)
    requires key.prv.None? && cfg.accounts == [Account(key, [])]
    ensures KeystoresOk(Prysm, |cfg.accounts|, _ => true)
    ensures LoadedKeys(Prysm, ValidatorSpec(Prysm, cfg)) == {} && BlsKeys(cfg.accounts) == {key}
  {
    PrysmRunsItsKeys(cfg);
    assert BlsKeys(cfg.accounts) == {key} by {
      assert cfg.accounts[0].bls == key;
    }
  }

  /** The host and the port that a client reads in an endpoint; only Prysm's has no scheme in front. */
  function HostPort(c: NodeClient, endpoint: string): Option<(string, string)> {
    SplitLast(if c.Prysm? then endpoint else TrimPrefix(endpoint, "http://"), ':')
  }

  function EndpointPort(c: NodeClient): nat {
    if c.Prysm? then GRPC_PORT else HTTP_PORT
  }

  /** Reading the command of the container gives the address of the beacon node and the port its clients use. */
  predicate TalksTo(c: NodeClient, spec: SpecData, beacon: NodeData) {
    var endpoint := ValueOf(spec.cmd, EndpointFlag(c));
    endpoint.Some? && HostPort(c, endpoint.value) == Some((beacon.ip, Decimal(EndpointPort(c))))
  }

  lemma EndpointReads(c: NodeClient, beacon: NodeData)
    requires Supported(c)
    ensures HostPort(c, Endpoint(c, beacon)) == Some((beacon.ip, Decimal(EndpointPort(c))))
  {
    var port := Decimal(EndpointPort(c));
    var rest := beacon.ip + ":" + port;
    var addr := Addr(beacon, EndpointPort(c));
    assert addr == "http://" + rest;
    assert "http://" <= addr && addr[|"http://"|..] == rest;
    SplitLastJoined(beacon.ip, port, ':');
    assert beacon.ip + [':'] + port == rest;
  }

  lemma EndpointPassed(c: NodeClient, beacon: NodeData)
    requires Supported(c)
    ensures ValueOf(ValidatorCmd(c, beacon), EndpointFlag(c)) == Some(Endpoint(c, beacon))
  {
    FlagAt(ValidatorCmd(c, beacon), EndpointFlag(c), match c case Lighthouse => 6 case Teku => 1 case _ => 7, 2);
  }

  /** A validator container is told the address of the beacon node it was configured with. */
  lemma ContainerTalksToBeacon(c: NodeClient, cfg: ValidatorConfig)
    requires Supported(c)
    ensures TalksTo(c, ValidatorSpec(c, cfg), cfg.beacon)
  {
    EndpointPassed(c, cfg.beacon);
    EndpointReads(c, cfg.beacon);
  }

  // ---------- configuration files and beacon commands ----------

  /** The chain configuration that a client reads. */
  function ConfigFile(c: NodeClient, cmd: seq<string>): Option<string> {
    match c
    case Lighthouse =>
      (match ValueOf(cmd, "--testnet-dir") case Some(dir) => Some(dir + "/config.yaml") case None => None)
    case Teku => ValueOf(cmd, "--network")
    case _ => ValueOf(cmd, "--chain-config-file")
  }

  /** The genesis state that a beacon client starts from. */
  function GenesisFile(c: NodeClient, cmd: seq<string>): Option<string> {
    match c
    case Lighthouse =>
      (match ValueOf(cmd, "--testnet-dir") case Some(dir) => Some(dir + "/genesis.ssz") case None => None)
    case Teku => ValueOf(cmd, "--initial-state")
    case _ => ValueOf(cmd, "--genesis-state")
  }

  function Eth1Flag(c: NodeClient): string {
    match c
    case Lighthouse => "--eth1-endpoints"
    case Teku => "--eth1-endpoint"
    case _ => "--http-web3provider"
  }

  /** The bootnode record a beacon client is given: Lighthouse reads a list in a file, the others a flag. */
  function BootnodeOf(c: NodeClient, spec: SpecData): Option<string> {
    match c
    case Lighthouse =>
      (match ValueOf(spec.cmd, "--testnet-dir")
       case Some(dir) =>
         var file := dir + "/boot_enr.yaml";
         if file in spec.files && spec.files[file].Plain? then Some(spec.files[file].text) else None
       case None => None)
    case Teku => ValueOf(spec.cmd, "--p2p-discovery-bootnodes")
    case _ => ValueOf(spec.cmd, "--bootstrap-node")
  }

  predicate HasFile(spec: SpecData, path: Option<string>, text: string) {
    path.Some? && path.value in spec.files && spec.files[path.value] == Plain(text)
  }

  lemma PrysmEndpointEnds(beacon: NodeData)
    ensures var e := Endpoint(Prysm, beacon); e != "" && IsDigit(e[|e| - 1])
  {
    var port := Decimal(GRPC_PORT);
    var addr := Addr(beacon, GRPC_PORT);
    assert addr == "http://" + (beacon.ip + ":" + port);
    assert addr[7..] == beacon.ip + ":" + port;
  }

  lemma LighthouseConfig(beacon: NodeData)
    ensures ConfigFile(Lighthouse, ValidatorCmd(Lighthouse, beacon)) == Some(CONFIG_PATH)
  {
    assert Endpoint(Lighthouse, beacon)[0] == 'h';
    FlagAt(ValidatorCmd(Lighthouse, beacon), "--testnet-dir", 8, 2);
    assert "/data" + "/config.yaml" == CONFIG_PATH;
  }

  lemma TekuConfig(beacon: NodeData)
    ensures ConfigFile(Teku, ValidatorCmd(Teku, beacon)) == Some(CONFIG_PATH)
  {
    assert Endpoint(Teku, beacon)[0] == 'h';
    FlagAt(ValidatorCmd(Teku, beacon), "--network", 5, 2);
  }

  lemma PrysmConfig(beacon: NodeData)
    ensures ConfigFile(Prysm, ValidatorCmd(Prysm, beacon)) == Some(CONFIG_PATH)
  {
    PrysmEndpointEnds(beacon);
    FlagAt(ValidatorCmd(Prysm, beacon), "--chain-config-file", 9, 18);
  }

  /** A validator client reads the chain configuration it was configured with. */
  lemma ValidatorReadsConfig(c: NodeClient, cfg: ValidatorConfig)
    requires Supported(c)
    ensures HasFile(ValidatorSpec(c, cfg), ConfigFile(c, ValidatorSpec(c, cfg).cmd), cfg.spec)
  {
    match c
    case Lighthouse =>
      LighthouseConfig(cfg.beacon);
      LighthouseKeepsConfig(cfg);
    case Teku =>
      TekuConfig(cfg.beacon);
      TekuKeepsConfig(cfg);
    case Prysm =>
      PrysmConfig(cfg.beacon);
  }

  lemma LighthouseKeepsConfig(cfg: ValidatorConfig)
    ensures CONFIG_PATH in ValidatorFiles(Lighthouse, cfg) && ValidatorFiles(Lighthouse, cfg)[CONFIG_PATH] == Plain(cfg.spec)
  {
    var base := map[CONFIG_PATH := Plain(cfg.spec)]["/data/deploy_block.txt" := Plain("0")];
    assert LIGHTHOUSE_LAYOUT.keyPrefix[6] != CONFIG_PATH[6] && LIGHTHOUSE_LAYOUT.passPrefix[6] != CONFIG_PATH[6];
    BaseFileStays(LIGHTHOUSE_LAYOUT, 6, base, cfg.accounts, PubNames(cfg.accounts), CONFIG_PATH);
  }

  lemma TekuKeepsConfig(cfg: ValidatorConfig)
    ensures CONFIG_PATH in ValidatorFiles(Teku, cfg) && ValidatorFiles(Teku, cfg)[CONFIG_PATH] == Plain(cfg.spec)
  {
    assert TEKU_LAYOUT.keyPrefix[6] != CONFIG_PATH[6] && TEKU_LAYOUT.passPrefix[6] != CONFIG_PATH[6];
    BaseFileStays(TEKU_LAYOUT, 6, map[CONFIG_PATH := Plain(cfg.spec)], cfg.accounts, IndexNames(|cfg.accounts|), CONFIG_PATH);
  }

  /** Key files do not overwrite a file whose path differs from both prefixes at position d. */
  lemma {:induction false} BaseFileStays(l: Layout, d: nat, base: map<string, Content>, accounts: seq<Account>,
                                         names: seq<string>, path: string)
    requires |accounts| == |names| && path in base
    requires d < |path| && d < |l.keyPrefix| && d < |l.passPrefix| && l.keyPrefix[d] != path[d] && l.passPrefix[d] != path[d]
    ensures path in KeyFiles(l, base, accounts, names) && KeyFiles(l, base, accounts, names)[path] == base[path]
  {
    if accounts != [] {
      var last := |accounts| - 1;
      BaseFileStays(l, d, base, accounts[..last], names[..last], path);
      assert KeyPath(l, names[last])[d] == l.keyPrefix[d] && PassPath(l, names[last])[d] == l.passPrefix[d];
    }
  }

  /** A value that cannot be taken for a flag. */
  predicate IsValue(s: string) {
    s == "" || s[0] != '-'
  }

  lemma LighthouseEth1(cfg: BeaconConfig)
    ensures ValueOf(BeaconCmd(Lighthouse, cfg), "--eth1-endpoints") == Some(cfg.eth1)
  {
    FlagAt(BeaconCmd(Lighthouse, cfg), "--eth1-endpoints", 7, 2);
  }

  lemma LighthouseTestnet(cfg: BeaconConfig)
    requires IsValue(cfg.eth1)
    ensures ValueOf(BeaconCmd(Lighthouse, cfg), "--testnet-dir") == Some("/data")
  {
    FlagAt(BeaconCmd(Lighthouse, cfg), "--testnet-dir", 11, 2);
  }

  lemma TekuEth1(cfg: BeaconConfig)
    ensures ValueOf(BeaconCmd(Teku, cfg), "--eth1-endpoint") == Some(cfg.eth1)
  {
    var cmd := BeaconCmd(Teku, cfg);
    assert cmd[2] == "--eth1-endpoint" && cmd[3] == cfg.eth1;
    FlagAt(cmd, "--eth1-endpoint", 2, 2);
  }

  lemma TekuNetwork(cfg: BeaconConfig)
    requires IsValue(cfg.eth1)
    ensures ValueOf(BeaconCmd(Teku, cfg), "--network") == Some(CONFIG_PATH)
  {
    var cmd := BeaconCmd(Teku, cfg);
    assert cmd[5] == "--network" && cmd[6] == CONFIG_PATH;
    FlagAt(cmd, "--network", 5, 2);
  }

  lemma TekuGenesis(cfg: BeaconConfig)
    requires IsValue(cfg.eth1)
    ensures ValueOf(BeaconCmd(Teku, cfg), "--initial-state") == Some(GENESIS_PATH)
  {
    var cmd := BeaconCmd(Teku, cfg);
    assert cmd[7] == "--initial-state" && cmd[8] == GENESIS_PATH;
    FlagAt(cmd, "--initial-state", 7, 2);
  }

  lemma TekuBootnode(cfg: BeaconConfig)
    requires IsValue(cfg.eth1) && cfg.bootnode != ""
    ensures ValueOf(BeaconCmd(Teku, cfg), "--p2p-discovery-bootnodes") == Some(cfg.bootnode)
  {
    var cmd := BeaconCmd(Teku, cfg);
    assert cmd[17] == "--p2p-discovery-bootnodes" && cmd[18] == cfg.bootnode;
    FlagAt(cmd, "--p2p-discovery-bootnodes", 17, 2);
  }

  lemma PrysmEth1(cfg: BeaconConfig)
    ensures ValueOf(BeaconCmd(Prysm, cfg), "--http-web3provider") == Some(cfg.eth1)
  {
    var cmd := BeaconCmd(Prysm, cfg);
    assert cmd[2] == "--http-web3provider" && cmd[3] == cfg.eth1;
    FlagAt(cmd, "--http-web3provider", 2, 2);
  }

  lemma PrysmBeaconConfig(cfg: BeaconConfig)
    requires IsValue(cfg.eth1)
    ensures ValueOf(BeaconCmd(Prysm, cfg), "--chain-config-file") == Some(CONFIG_PATH)
  {
    var cmd := BeaconCmd(Prysm, cfg);
    assert cmd[16] == "--chain-config-file" && cmd[17] == CONFIG_PATH;
    FlagAt(cmd, "--chain-config-file", 16, 2);
  }

  lemma PrysmGenesis(cfg: BeaconConfig)
    requires IsValue(cfg.eth1)
    ensures ValueOf(BeaconCmd(Prysm, cfg), "--genesis-state") == Some(GENESIS_PATH)
  {
    var cmd := BeaconCmd(Prysm, cfg);
    assert cmd[18] == "--genesis-state" && cmd[19] == GENESIS_PATH;
    FlagAt(cmd, "--genesis-state", 18, 2);
  }

  lemma PrysmBootnode(cfg: BeaconConfig)
    requires IsValue(cfg.eth1) && cfg.bootnode != ""
    ensures ValueOf(BeaconCmd(Prysm, cfg), "--bootstrap-node") == Some(cfg.bootnode)
  {
    var cmd := BeaconCmd(Prysm, cfg);
    assert cmd[30] == "--bootstrap-node" && cmd[31] == cfg.bootnode;
    FlagAt(cmd, "--bootstrap-node", 30, 2);
  }

  /** A beacon client reads the chain configuration, the genesis state, the execution node's address and the bootnode that
      it was configured with. */
  lemma BeaconReadsConfig(c: NodeClient, cfg: BeaconConfig)
    requires Supported(c) && IsValue(cfg.eth1)
    ensures HasFile(BeaconSpec(c, cfg), ConfigFile(c, BeaconSpec(c, cfg).cmd), cfg.spec)
    ensures HasFile(BeaconSpec(c, cfg), GenesisFile(c, BeaconSpec(c, cfg).cmd), cfg.genesisSSZ)
    ensures ValueOf(BeaconSpec(c, cfg).cmd, Eth1Flag(c)) == Some(cfg.eth1)
    ensures cfg.bootnode != "" ==>
              BootnodeOf(c, BeaconSpec(c, cfg)) == Some(if c.Lighthouse? then "- " + cfg.bootnode + "\n" else cfg.bootnode)
  {
    match c
    case Lighthouse => LighthouseBeaconReads(cfg);
    case Teku => TekuBeaconReads(cfg);
    case Prysm => PrysmBeaconReads(cfg);
  }

  lemma BeaconFilesKept(c: NodeClient, cfg: BeaconConfig)
    ensures var files := BeaconFiles(c, cfg);
            && CONFIG_PATH in files && files[CONFIG_PATH] == Plain(cfg.spec)
            && GENESIS_PATH in files && files[GENESIS_PATH] == Plain(cfg.genesisSSZ)
  {
    assert CONFIG_PATH[6] != GENESIS_PATH[6];
    assert "/data/deploy_block.txt"[6] != CONFIG_PATH[6] && "/data/deploy_block.txt"[6] != GENESIS_PATH[6];
    assert "/data/boot_enr.yaml"[6] != CONFIG_PATH[6] && "/data/boot_enr.yaml"[6] != GENESIS_PATH[6];
  }

  lemma LighthouseBeaconReads(cfg: BeaconConfig)
    requires IsValue(cfg.eth1)
    ensures var s := BeaconSpec(Lighthouse, cfg);
            && ConfigFile(Lighthouse, s.cmd) == Some(CONFIG_PATH) && HasFile(s, Some(CONFIG_PATH), cfg.spec)
            && GenesisFile(Lighthouse, s.cmd) == Some(GENESIS_PATH) && HasFile(s, Some(GENESIS_PATH), cfg.genesisSSZ)
            && ValueOf(s.cmd, "--eth1-endpoints") == Some(cfg.eth1)
            && (cfg.bootnode != "" ==> BootnodeOf(Lighthouse, s) == Some("- " + cfg.bootnode + "\n"))
  {
    LighthouseEth1(cfg);
    LighthouseTestnet(cfg);
    BeaconFilesKept(Lighthouse, cfg);
    TestnetPaths();
    if cfg.bootnode != "" {
      LighthouseBootnode(cfg);
    }
  }

  lemma TestnetPaths()
    ensures "/data" + "/config.yaml" == CONFIG_PATH && "/data" + "/genesis.ssz" == GENESIS_PATH
  {
  }

  lemma LighthouseBootnode(cfg: BeaconConfig)
    requires IsValue(cfg.eth1) && cfg.bootnode != ""
    ensures BootnodeOf(Lighthouse, BeaconSpec(Lighthouse, cfg)) == Some("- " + cfg.bootnode + "\n")
  {
    LighthouseTestnet(cfg);
    BootFile(cfg);
    BootPath();
  }

  lemma BootFile(cfg: BeaconConfig)
    requires cfg.bootnode != ""
    ensures "/data/boot_enr.yaml" in BeaconFiles(Lighthouse, cfg)
    ensures BeaconFiles(Lighthouse, cfg)["/data/boot_enr.yaml"] == Plain("- " + cfg.bootnode + "\n")
  {
  }

  lemma BootPath()
    ensures "/data" + "/boot_enr.yaml" == "/data/boot_enr.yaml"
  {
  }

  lemma TekuBeaconReads(cfg: BeaconConfig)
    requires IsValue(cfg.eth1)
    ensures var s := BeaconSpec(Teku, cfg);
            && ConfigFile(Teku, s.cmd) == Some(CONFIG_PATH) && HasFile(s, Some(CONFIG_PATH), cfg.spec)
            && GenesisFile(Teku, s.cmd) == Some(GENESIS_PATH) && HasFile(s, Some(GENESIS_PATH), cfg.genesisSSZ)
            && ValueOf(s.cmd, "--eth1-endpoint") == Some(cfg.eth1)
            && (cfg.bootnode != "" ==> BootnodeOf(Teku, s) == Some(cfg.bootnode))
  {
    TekuEth1(cfg);
    TekuNetwork(cfg);
    TekuGenesis(cfg);
    BeaconFilesKept(Teku, cfg);
    if cfg.bootnode != "" {
      TekuBootnode(cfg);
    }
  }

  lemma PrysmBeaconReads(cfg: BeaconConfig)
    requires IsValue(cfg.eth1)
    ensures var s := BeaconSpec(Prysm, cfg);
            && ConfigFile(Prysm, s.cmd) == Some(CONFIG_PATH) && HasFile(s, Some(CONFIG_PATH), cfg.spec)
            && GenesisFile(Prysm, s.cmd) == Some(GENESIS_PATH) && HasFile(s, Some(GENESIS_PATH), cfg.genesisSSZ)
            && ValueOf(s.cmd, "--http-web3provider") == Some(cfg.eth1)
            && (cfg.bootnode != "" ==> BootnodeOf(Prysm, s) == Some(cfg.bootnode))
  {
    PrysmEth1(cfg);
    PrysmBeaconConfig(cfg);
    PrysmGenesis(cfg);
    BeaconFilesKept(Prysm, cfg);
    if cfg.bootnode != "" {
      PrysmBootnode(cfg);
    }
  }
}
