/** How the containers of the client factories meet the file placement of the container runtime: their layouts are clean,
    so each container sees exactly the files, and loads exactly the keys, of its description. */
module Deployment {
  import opened Text
  import opened Keys
  import opened Paths
  import opened ContainerSpec
  import opened Components
  import opened DockerFiles
  import opened CleanLayouts

  /** The files of a container have clean paths below the data mount, none below another. */
  ghost predicate CleanData(paths: set<string>) {
    NoneUnder(paths) && forall p {:trigger CleanFile({DATA}, p)} :: p in paths ==> CleanFile({DATA}, p)
  }

  ghost predicate CleanContainer(spec: SpecData) {
    spec.mounts == [DATA] && CleanData(spec.files.Keys)
  }

  // ---------- the components of the clients' files ----------

  /** Components of this shape are never below each other: their number is determined by the directory they are in. */
  predicate LeafShape(a: Path) {
    && |a| >= 2 && a[0] == "data"
    && if a[1] == "node" then |a| > 2 && |a| == (if a[2] == "validators" then 5 else 4)
       else if a[1] == "keys" || a[1] == "pass" then |a| == 3
       else if a[1] == "direct" then |a| == 4
       else |a| == 2
  }

  ghost predicate IsLeaf(path: string) {
    exists a :: Proper(a) && LeafShape(a) && path == Render(a)
  }

  lemma DataIsClean()
    ensures CleanPath(DATA) && Resolve(DATA) == ["data"] && Render(["data"]) == DATA
  {
    RenderName([], "data");
    assert [] + ["data"] == ["data"];
    RenderedIsClean(["data"]);
  }

  lemma LeafIsClean(path: string)
    requires IsLeaf(path)
    ensures CleanFile({DATA}, path) && LeafShape(Resolve(path))
  {
    var a :| Proper(a) && LeafShape(a) && path == Render(a);
    RenderedIsClean(a);
    RenderStarts(a);
    assert DATA in {DATA};
  }

  lemma {:induction false} RenderStarts(a: Path)
    requires |a| >= 2 && a[0] == "data"
    ensures DATA + "/" <= Render(a)
  {
    DataIsClean();
    if |a| == 2 {
      RenderName(["data"], a[1]);
      assert a == ["data"] + [a[1]];
    } else {
      RenderStarts(a[..|a| - 1]);
    }
  }

  lemma LeavesApart(a: Path, b: Path)
    requires LeafShape(a) && LeafShape(b)
    ensures !(a < b)
  {
  }

  lemma LeavesAreClean(paths: set<string>)
    requires forall p :: p in paths ==> IsLeaf(p)
    ensures CleanData(paths)
  {
    forall p | p in paths
      ensures CleanFile({DATA}, p) && LeafShape(Resolve(p))
    {
      LeafIsClean(p);
    }
    forall p, q | p in paths && q in paths
      ensures !(Resolve(p) < Resolve(q))
    {
      LeavesApart(Resolve(p), Resolve(q));
    }
  }

  // ---------- configuration files ----------

  /** A file directly in the data directory. */
  lemma TopLeaf(path: string, name: string)
    requires path == "/data/" + name
    requires ProperName(name) && name != "node" && name != "keys" && name != "pass" && name != "direct"
    ensures IsLeaf(path)
  {
    DataIsClean();
    RenderName(["data"], name);
    assert DATA + "/" + name == path;
    assert Proper(["data"] + [name]) && LeafShape(["data"] + [name]);
  }

  lemma ConfigLeaf()
    ensures IsLeaf(CONFIG_PATH)
  {
    TopLeaf(CONFIG_PATH, "config.yaml");
  }

  lemma GenesisLeaf()
    ensures IsLeaf(GENESIS_PATH)
  {
    TopLeaf(GENESIS_PATH, "genesis.ssz");
  }

  lemma PasswordLeaf()
    ensures IsLeaf(PRYSM_PASSWORD)
  {
    TopLeaf(PRYSM_PASSWORD, "wallet-password.txt");
  }

  lemma DeployBlockLeaf()
    ensures IsLeaf("/data/deploy_block.txt")
  {
    TopLeaf("/data/deploy_block.txt", "deploy_block.txt");
  }

  lemma BootLeaf()
    ensures IsLeaf("/data/boot_enr.yaml")
  {
    TopLeaf("/data/boot_enr.yaml", "boot_enr.yaml");
  }

  // ---------- key files ----------

  lemma RenderTwo(a: string, b: string)
    ensures Render(["data", a, b]) == "/data/" + a + "/" + b
  {
    DataIsClean();
    RenderName(["data"], a);
    RenderName(["data"] + [a], b);
    assert ["data"] + [a] + [b] == ["data", a, b];
    assert DATA + "/" + a + "/" + b == "/data/" + a + "/" + b;
  }

  lemma RenderThree(a: string, b: string, c: string)
    ensures Render(["data", a, b, c]) == "/data/" + a + "/" + b + "/" + c
  {
    RenderTwo(a, b);
    RenderName(["data", a, b], c);
    assert ["data", a, b] + [c] == ["data", a, b, c];
  }

  lemma RenderFour(a: string, b: string, c: string, d: string)
    ensures Render(["data", a, b, c, d]) == "/data/" + a + "/" + b + "/" + c + "/" + d
  {
    RenderThree(a, b, c);
    RenderName(["data", a, b, c], d);
    assert ["data", a, b, c] + [d] == ["data", a, b, c, d];
  }

  lemma SecretLeaf(name: string)
    requires ProperName(name)
    ensures IsLeaf("/data/node/secrets/" + name)
  {
    var a := ["data", "node", "secrets", name];
    RenderThree("node", "secrets", name);
    assert "/data/" + "node" + "/" + "secrets" + "/" == "/data/node/secrets/";
    assert Proper(a) && LeafShape(a);
  }

  lemma Regroup(a: string, b: string, c: string, d: string)
    ensures a + b + c + d == a + b + (c + d)
  {
  }

  lemma KeystoreLeaf(name: string)
    requires ProperName(name)
    ensures IsLeaf("/data/node/validators/" + name + "/voting-keystore.json")
  {
    var last := "voting-keystore.json";
    assert "/" + last == "/voting-keystore.json";
    NamedDirLeaf(name, last);
  }

  lemma NamedDirLeaf(name: string, last: string)
    requires ProperName(name) && ProperName(last)
    ensures IsLeaf("/data/node/validators/" + name + ("/" + last))
  {
    RenderFour("node", "validators", name, last);
    assert "/data/" + "node" + "/" + "validators" + "/" == "/data/node/validators/";
    Regroup("/data/node/validators/", name, "/", last);
    FourProper(name, last);
  }

  lemma FourProper(name: string, last: string)
    requires ProperName(name) && ProperName(last)
    ensures Proper(["data", "node", "validators", name, last]) && LeafShape(["data", "node", "validators", name, last])
  {
  }

  lemma PrysmLeaf()
    ensures IsLeaf(PRYSM_KEYS)
  {
    var last := "all-accounts.keystore.json";
    assert "/data/direct/accounts/" + last == PRYSM_KEYS;
    AccountsLeaf(last);
  }

  lemma AccountsLeaf(last: string)
    requires ProperName(last)
    ensures IsLeaf("/data/direct/accounts/" + last)
  {
    RenderThree("direct", "accounts", last);
    assert "/data/" + "direct" + "/" + "accounts" + "/" == "/data/direct/accounts/";
    ThreeProper(last);
  }

  lemma ThreeProper(last: string)
    requires ProperName(last)
    ensures Proper(["data", "direct", "accounts", last]) && LeafShape(["data", "direct", "accounts", last])
  {
  }

  lemma TekuKeyLeaf(name: string)
    requires ProperName(name + ".json")
    ensures IsLeaf(KeyPath(TEKU_LAYOUT, name))
  {
    var a := ["data", "keys", name + ".json"];
    RenderTwo("keys", name + ".json");
    assert "/data/" + "keys" + "/" == TEKU_LAYOUT.keyPrefix;
    assert TEKU_LAYOUT.keyPrefix + name + ".json" == TEKU_LAYOUT.keyPrefix + (name + ".json");
    assert Proper(a) && LeafShape(a);
  }

  lemma TekuPassLeaf(name: string)
    requires ProperName(name + ".txt")
    ensures IsLeaf(PassPath(TEKU_LAYOUT, name))
  {
    var a := ["data", "pass", name + ".txt"];
    RenderTwo("pass", name + ".txt");
    assert "/data/" + "pass" + "/" == TEKU_LAYOUT.passPrefix;
    assert TEKU_LAYOUT.passPrefix + name + ".txt" == TEKU_LAYOUT.passPrefix + (name + ".txt");
    assert Proper(a) && LeafShape(a);
  }

  lemma PubNameProper(pub: Bytes)
    ensures ProperName(PubName(pub))
  {
    var hex := HexEncode(pub);
    HexCharacters(pub);
    forall i | 0 <= i < |hex|
      ensures hex[i] != '/'
    {
      assert HexValue(hex[i]).Some? && HexValue('/').None?;
    }
    assert PubName(pub)[0] == '0';
  }

  lemma IndexNameProper(i: nat, suffix: string)
    requires '/' !in suffix
    ensures ProperName(IndexName(i) + suffix)
  {
    var name := Decimal(i);
    assert forall k :: 0 <= k < |name| ==> IsDigit(name[k]);
    assert (IndexName(i) + suffix)[0] == 'a';
  }

  lemma LighthouseNamed(accounts: seq<Account>, path: string)
    requires NamedFile(LIGHTHOUSE_LAYOUT, PubNames(accounts), path)
    ensures IsLeaf(path)
  {
    var names := PubNames(accounts);
    var i :| 0 <= i < |names| && (path == KeyPath(LIGHTHOUSE_LAYOUT, names[i]) || path == PassPath(LIGHTHOUSE_LAYOUT, names[i]));
    PubNameProper(accounts[i].bls.pub);
    KeystoreLeaf(names[i]);
    SecretLeaf(names[i]);
    assert PassPath(LIGHTHOUSE_LAYOUT, names[i]) == "/data/node/secrets/" + names[i];
  }

  lemma TekuNamed(n: nat, path: string)
    requires NamedFile(TEKU_LAYOUT, IndexNames(n), path)
    ensures IsLeaf(path)
  {
    var names := IndexNames(n);
    var i :| 0 <= i < |names| && (path == KeyPath(TEKU_LAYOUT, names[i]) || path == PassPath(TEKU_LAYOUT, names[i]));
    IndexNameProper(i, ".json");
    IndexNameProper(i, ".txt");
    TekuKeyLeaf(names[i]);
    TekuPassLeaf(names[i]);
  }

  lemma LighthouseLeaf(cfg: ValidatorConfig, path: string)
    requires path in ValidatorFiles(Lighthouse, cfg)
    ensures IsLeaf(path)
  {
    var base := map[CONFIG_PATH := Plain(cfg.spec)]["/data/deploy_block.txt" := Plain("0")];
    ConfigLeaf();
    DeployBlockLeaf();
    KeyFilesOrigin(LIGHTHOUSE_LAYOUT, base, cfg.accounts, PubNames(cfg.accounts), path);
    if NamedFile(LIGHTHOUSE_LAYOUT, PubNames(cfg.accounts), path) {
      LighthouseNamed(cfg.accounts, path);
    }
  }

  lemma TekuLeaf(cfg: ValidatorConfig, path: string)
    requires path in ValidatorFiles(Teku, cfg)
    ensures IsLeaf(path)
  {
    ConfigLeaf();
    KeyFilesOrigin(TEKU_LAYOUT, map[CONFIG_PATH := Plain(cfg.spec)], cfg.accounts, IndexNames(|cfg.accounts|), path);
    if NamedFile(TEKU_LAYOUT, IndexNames(|cfg.accounts|), path) {
      TekuNamed(|cfg.accounts|, path);
    }
  }

  lemma ValidatorLeaf(c: NodeClient, cfg: ValidatorConfig, path: string)
    requires Supported(c) && path in ValidatorFiles(c, cfg)
    ensures IsLeaf(path)
  {
    match c
    case Lighthouse => LighthouseLeaf(cfg, path);
    case Teku => TekuLeaf(cfg, path);
    case Prysm =>
      PrysmLeaf();
      PasswordLeaf();
      ConfigLeaf();
  }

  /** Whatever the accounts, the files of a validator container have clean paths below its only mount. */
  lemma ValidatorFilesClean(c: NodeClient, cfg: ValidatorConfig)
    requires Supported(c)
    ensures CleanContainer(ValidatorSpec(c, cfg))
  {
    forall path | path in ValidatorFiles(c, cfg)
      ensures IsLeaf(path)
    {
      ValidatorLeaf(c, cfg, path);
    }
    LeavesAreClean(ValidatorFiles(c, cfg).Keys);
  }

  /** And so have those of a beacon container. */
  lemma BeaconFilesClean(c: NodeClient, cfg: BeaconConfig)
    requires Supported(c)
    ensures CleanContainer(BeaconSpec(c, cfg))
  {
    ConfigLeaf();
    GenesisLeaf();
    DeployBlockLeaf();
    BootLeaf();
    LeavesAreClean(BeaconFiles(c, cfg).Keys);
  }

  // ---------- what the containers see ----------

  lemma DataLayout(dir: string, paths: set<string>)
    requires CleanData(paths)
    ensures CleanLayout(map[DATA := dir], paths)
  {
    var mountMap := map[DATA := dir];
    DataIsClean();
    assert mountMap.Keys == {DATA};
    assert CleanMount(mountMap, DATA);
  }

  /** A container with a clean description, deployed into a new directory: it fails only for reasons of its own, and then
      sees exactly the files of the description. */
  lemma CleanContainerSees(spec: SpecData, t: Tree, dir: string, writes: string -> bool, ok: bool,
                           chosen: map<string, string>, after: Tree, seen: map<string, Content>)
    requires CleanContainer(spec) && NewDir(t, Resolve(dir))
    requires Attempt(t, map[DATA := dir], spec.files, writes, ok, chosen, after)
    ensures ok <==> forall p :: p in spec.files ==> writes(p)
    ensures ok ==> (IsView(seen, after, Resolve(dir), DATA) <==> seen == spec.files)
  {
    var mountMap := map[DATA := dir];
    DataLayout(dir, spec.files.Keys);
    assert NewDirs(t, mountMap);
    CleanSucceeds(t, mountMap, spec.files, writes, ok, chosen, after);
    if ok {
      ContainerSeesItsFiles(t, DATA, dir, spec.files, writes, chosen, after, seen);
    }
  }

  /** Some successful placement of the description's files into a new directory shows the container these files. */
  ghost predicate Shows(spec: SpecData, seen: map<string, Content>) {
    exists t, dir, writes, chosen, after ::
      NewDir(t, Resolve(dir)) && Attempt(t, map[DATA := dir], spec.files, writes, true, chosen, after)
      && IsView(seen, after, Resolve(dir), DATA)
  }

  lemma ShownFiles(spec: SpecData, seen: map<string, Content>)
    requires CleanContainer(spec) && Shows(spec, seen)
    ensures seen == spec.files
  {
    var t, dir, writes, chosen, after :|
      NewDir(t, Resolve(dir)) && Attempt(t, map[DATA := dir], spec.files, writes, true, chosen, after)
      && IsView(seen, after, Resolve(dir), DATA);
    CleanContainerSees(spec, t, dir, writes, true, chosen, after, seen);
  }

  /** The keys that a validator client loads in its container are exactly its accounts', for Prysm if all of them marshal. */
  lemma KeysInContainer(c: NodeClient, cfg: ValidatorConfig, seen: map<string, Content>)
    requires Supported(c) && Distinct(cfg.accounts) && Shows(ValidatorSpec(c, cfg), seen)
    ensures LoadedKeys(c, ValidatorSpec(c, cfg).(files := seen)) == BlsKeys(cfg.accounts) <==> !c.Prysm? || AllMarshal(cfg.accounts)
  {
    ValidatorFilesClean(c, cfg);
    ShownFiles(ValidatorSpec(c, cfg), seen);
    ContainerRunsItsKeys(c, cfg);
  }
}
