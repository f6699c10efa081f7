/** What a container finds over all its bind mounts: the deepest mount on the way to a path decides where on the host the
    path leads. */
module ContainerFiles {
  import opened Wrappers
  import opened Paths
  import opened ContainerSpec
  import opened DockerFiles
  import opened BindMounts

  /** A directory of the host, mounted at a path of the container. */
  datatype Bind = Bind(at: Path, dir: Path)

  /** Deploy binds every entry of its mount map. */
  function BindsOf(mountMap: map<string, string>): (binds: map<string, Bind>)
    ensures binds.Keys == mountMap.Keys
  {
    map m | m in mountMap :: Bind(Resolve(m), Resolve(mountMap[m]))
  }

  /** The bind covers the path, and no bind of a deeper mount does. */
  ghost predicate Decides(binds: map<string, Bind>, n: string, q: Path) {
    && n in binds && binds[n].at <= q
    && forall k :: k in binds && binds[k].at <= q ==> !(binds[n].at < binds[k].at)
  }

  function Through(b: Bind, q: Path): Path
    requires b.at <= q
  {
    b.dir + q[|b.at|..]
  }

  /** The path of the container leads to this path of the host. Of two mounts at the same path either may decide, so both
      must lead there. */
  ghost predicate LeadsTo(binds: map<string, Bind>, q: Path, host: Path) {
    && (exists n :: Decides(binds, n, q))
    && forall n :: Decides(binds, n, q) ==> Through(binds[n], q) == host
  }

  /** The container finds this very file of the host at the path. */
  ghost predicate Finds(t: Tree, mountMap: map<string, string>, q: Path, host: Path) {
    host in t.files && LeadsTo(BindsOf(mountMap), q, host)
  }

  /** No other mount is met on the way from the mount to the path. */
  ghost predicate NoneBetween(binds: map<string, Bind>, m: string, q: Path)
    requires m in binds
  {
    forall n :: n in binds && n != m ==> !(binds[m].at <= binds[n].at <= q)
  }

  /** The temporary directories are siblings, each with a name of its own. */
  ghost predicate OwnDirs(binds: map<string, Bind>) {
    && (forall n :: n in binds ==> OtherName(binds[n].dir, binds[n].at))
    && forall m, n :: m in binds && n in binds ==> |binds[m].dir| == |binds[n].dir| && (binds[m].dir == binds[n].dir ==> m == n)
  }

  // ---------- the deciding mount ----------

  lemma {:induction false} SomeoneDecides(binds: map<string, Bind>, n: string, q: Path) returns (k: string)
    requires n in binds && binds[n].at <= q
    ensures Decides(binds, k, q) && binds[n].at <= binds[k].at
    decreases |q| - |binds[n].at|
  {
    k := n;
    if !Decides(binds, n, q) {
      var deeper :| deeper in binds && binds[deeper].at <= q && binds[n].at < binds[deeper].at;
      k := SomeoneDecides(binds, deeper, q);
    }
  }

  lemma PrefixesOfOne(a: Path, b: Path, c: Path)
    requires a <= c && b <= c
    ensures a < b || b <= a
  {
    if |a| < |b| {
      assert a == c[..|a|] == b[..|a|];
    } else {
      assert b == c[..|b|] == a[..|b|];
    }
  }

  lemma SoleDecider(binds: map<string, Bind>, m: string, q: Path)
    requires m in binds && Decides(binds, m, q) && forall n :: Decides(binds, n, q) ==> n == m
    ensures NoneBetween(binds, m, q)
  {
    forall k | k in binds && k != m && binds[k].at <= q
      ensures !(binds[m].at <= binds[k].at)
    {
      var d := SomeoneDecides(binds, k, q);
      assert binds[k].at <= binds[m].at;
      assert binds[k].at == binds[m].at ==> Decides(binds, k, q);
    }
  }

  /** When only m can lead to the host path, it is reached exactly when m leads there and no other mount is met. */
  lemma OneBindLeads(binds: map<string, Bind>, m: string, q: Path, host: Path)
    requires m in binds && forall n :: n in binds && n != m && binds[n].at <= q ==> Through(binds[n], q) != host
    ensures LeadsTo(binds, q, host) <==>
            binds[m].at <= q && Through(binds[m], q) == host && NoneBetween(binds, m, q)
  {
    if LeadsTo(binds, q, host) {
      assert Decides(binds, m, q);
      SoleDecider(binds, m, q);
    }
    if binds[m].at <= q && Through(binds[m], q) == host && NoneBetween(binds, m, q) {
      var d := SomeoneDecides(binds, m, q);
      assert d == m;
      forall n | Decides(binds, n, q)
        ensures n == m
      {
        PrefixesOfOne(binds[n].at, binds[m].at, q);
      }
    }
  }

  /** A bind that leads to a path with the same end has its mount's last names from its directory. */
  lemma NamesFromDir(b: Bind, before: Path, there: Path, down: Path)
    requires |before| <= |b.dir| && b.at <= there + down && Through(b, there + down) == before + down
    ensures b.at == there + b.dir[|before|..]
  {
    var host, k := before + down, |before|;
    assert b.dir == host[..|b.dir|];
    assert b.dir[..k] == host[..k] == before;
    assert b.at + host[|b.dir|..] == there + down;
    ComesBack(b.dir, k, down, b.at, there);
  }

  /** The host path that a file gets through m is not reached through another mount. */
  lemma OthersMiss(binds: map<string, Bind>, m: string, n: string, before: Path, there: Path, down: Path)
    requires OwnDirs(binds) && m in binds && n in binds && n != m
    requires before <= binds[m].dir || binds[m].dir <= before
    requires binds[n].at <= there + down
    ensures Through(binds[n], there + down) != before + down
  {
    var b, dir := binds[n], binds[m].dir;
    assert Through(b, there + down)[..|dir|] == b.dir;
    if dir <= before {
      assert (before + down)[..|dir|] == dir;
    } else if Through(b, there + down) == before + down {
      NamesFromDir(b, before, there, down);
      LastNames(b.at, there, b.dir[|before|..]);
    }
  }

  // ---------- where a file's path leads ----------

  /** A file's place on the host and its path in the container have the same end, and leave the mount's directory and the
      mount in the same way. */
  lemma CommonEnd(dir: Path, mount: string, cm: Path, rest: string) returns (before: Path, there: Path, down: Path)
    requires Proper(cm) && (mount == Render(cm) || mount == Render(cm) + "/")
    ensures Walk(Split(rest), dir) == before + down && Resolve(mount + rest) == there + down
    ensures before <= dir || dir <= before
  {
    var parts := Split(rest);
    if AtBoundary(mount, rest) {
      MountLeadsTo(mount, cm);
      BoundaryWalks(mount, rest);
      WalkNet(parts, dir);
      WalkNet(parts, cm);
      var m := Descent(rest);
      before, there, down := dir[..Kept(dir, m.up)], cm[..Kept(cm, m.up)], m.down;
    } else {
      assert mount == Render(cm);
      MiddleWalks(cm, rest);
      var stack, goal := Push(parts[0], dir), cm[..|cm| - 1] + [cm[|cm| - 1] + parts[0]];
      WalkNet(parts[1..], stack);
      WalkNet(parts[1..], goal);
      var m := Net(parts[1..], STAY);
      before, there, down := stack[..Kept(stack, m.up)], goal[..Kept(goal, m.up)], m.down;
      PushComparable(parts[0], dir, Kept(stack, m.up));
    }
  }

  lemma PushComparable(part: string, dir: Path, k: nat)
    requires k <= |Push(part, dir)|
    ensures Push(part, dir)[..k] <= dir || dir <= Push(part, dir)[..k]
  {
    var stack := Push(part, dir);
    if k <= |dir| {
      assert stack[..k] == dir[..k];
    } else {
      assert stack[..k] == stack;
    }
  }

  predicate CleanMountText(mount: string) {
    mount == Render(Resolve(mount)) || mount == Render(Resolve(mount)) + "/"
  }

  /** For every path that a mount prefixes, over all binds: it leads in the container to the place of the file that was
      placed through the mount exactly when it goes on at a boundary of the mount, its rest never leaves it, and no other
      mount is met on the way. */
  lemma LeadsToItsPlace(mountMap: map<string, string>, mount: string, path: string)
    requires OwnDirs(BindsOf(mountMap)) && mount in mountMap && CleanMountText(mount) && Matches(mount, path)
    ensures LeadsTo(BindsOf(mountMap), Resolve(path), LocalPath(mountMap, mount, path)) <==>
            && AtBoundary(mount, path[|mount|..]) && StaysBelow(path[|mount|..])
            && NoneBetween(BindsOf(mountMap), mount, Resolve(path))
  {
    var binds, q, host := BindsOf(mountMap), Resolve(path), LocalPath(mountMap, mount, path);
    ResolveProper(mount);
    ShownAtItsPath(mountMap, mount, Resolve(mount), path);
    OnlyItsMount(mountMap, mount, path);
    OneBindLeads(binds, mount, q, host);
    SeenIsThrough(binds[mount], q, host);
  }

  lemma OnlyItsMount(mountMap: map<string, string>, mount: string, path: string)
    requires OwnDirs(BindsOf(mountMap)) && mount in mountMap && CleanMountText(mount) && Matches(mount, path)
    ensures var binds := BindsOf(mountMap);
            forall n :: n in binds && n != mount && binds[n].at <= Resolve(path) ==>
              Through(binds[n], Resolve(path)) != LocalPath(mountMap, mount, path)
  {
    var rest := path[|mount|..];
    ResolveProper(mount);
    JoinWalks(mountMap[mount], rest);
    assert path == mount + rest;
    var before, there, down := CommonEnd(Resolve(mountMap[mount]), mount, Resolve(mount), rest);
    var binds := BindsOf(mountMap);
    forall n | n in binds && n != mount && binds[n].at <= Resolve(path)
      ensures Through(binds[n], Resolve(path)) != LocalPath(mountMap, mount, path)
    {
      OthersMiss(binds, mount, n, before, there, down);
    }
  }

  lemma SeenIsThrough(b: Bind, q: Path, host: Path)
    ensures Seen(b.dir, b.at, host) == Some(q) <==> b.at <= q && Through(b, q) == host
  {
    if b.at <= q && Through(b, q) == host {
      assert b.at + host[|b.dir|..] == q;
    }
    if Seen(b.dir, b.at, host) == Some(q) {
      assert q[|b.at|..] == host[|b.dir|..];
    }
  }

  // ---------- after a placement ----------

  /** The temporary directories that Deploy has just made are there. */
  ghost predicate DirsExist(t: Tree, mountMap: map<string, string>) {
    forall m {:trigger Resolve(mountMap[m])} :: m in mountMap ==> Resolve(mountMap[m]) in t.dirs
  }

  lemma PlacedIsThere(t: Tree, mountMap: map<string, string>, files: map<string, Content>, writes: string -> bool,
                      chosen: map<string, string>, after: Tree, path: string)
    requires Attempt(t, mountMap, files, writes, true, chosen, after) && path in files
    ensures LocalPath(mountMap, chosen[path], path) in after.files && LocalPath(mountMap, chosen[path], path) !in t.dirs
  {
    var place := Places(mountMap, chosen);
    var order :| IsOrder(order, place.Keys)
                 && after == Tree(t.dirs + Ancestors(place.Values), t.files + DiskAfter(place, files, order));
    DiskKeys(place, files, order);
    assert place[path] in place.Values;
  }

  /** A file whose path leads to its mount itself cannot be placed: there the host has the temporary directory. */
  lemma MountIsNoFile(t: Tree, mountMap: map<string, string>, files: map<string, Content>, writes: string -> bool,
                      ok: bool, chosen: map<string, string>, after: Tree, path: string)
    requires Attempt(t, mountMap, files, writes, ok, chosen, after) && DirsExist(t, mountMap)
    requires path in chosen && Descent(path[|chosen[path]|..]) == STAY
    ensures !ok
  {
    BelowPlace(mountMap, chosen[path], path);
    var dir := Resolve(mountMap[chosen[path]]);
    assert dir + [] == dir;
    if ok {
      PlacedIsThere(t, mountMap, files, writes, chosen, after, path);
    }
  }

  /** After every successful placement, for all mounts and every file: the container finds the file where its path leads
      exactly when the path goes on at a boundary of the file's mount, its rest enters the mount and never leaves it, and no
      other mount is met on the way. */
  lemma FoundAtItsPath(t: Tree, mountMap: map<string, string>, files: map<string, Content>, writes: string -> bool,
                       chosen: map<string, string>, after: Tree, path: string)
    requires Attempt(t, mountMap, files, writes, true, chosen, after) && path in files
    requires OwnDirs(BindsOf(mountMap)) && DirsExist(t, mountMap) && CleanMountText(chosen[path])
    ensures var (mount, rest) := (chosen[path], path[|chosen[path]|..]);
            Finds(after, mountMap, Resolve(path), LocalPath(mountMap, mount, path)) <==>
              && AtBoundary(mount, rest) && StaysBelow(rest) && Descent(rest).down != []
              && NoneBetween(BindsOf(mountMap), mount, Resolve(path))
  {
    LeadsToItsPlace(mountMap, chosen[path], path);
    PlacedIsThere(t, mountMap, files, writes, chosen, after, path);
    if Descent(path[|chosen[path]|..]) == STAY {
      MountIsNoFile(t, mountMap, files, writes, true, chosen, after, path);
    }
  }

  // ---------- nested mounts ----------

  lemma OneNamed(a: string)
    requires ProperName(a)
    ensures Resolve("/" + a) == [a] && Render([a]) == "/" + a
  {
    RenderName([], a);
    assert [] + [a] == [a];
    ResolveRender([a]);
  }

  lemma TwoNamed(a: string, b: string)
    requires ProperName(a) && ProperName(b)
    ensures Resolve("/" + a + "/" + b) == [a, b]
  {
    OneNamed(a);
    RenderName([a], b);
    assert [a] + [b] == [a, b];
    ResolveRender([a, b]);
  }

  lemma ThreeNamed(a: string, b: string, c: string)
    requires ProperName(a) && ProperName(b) && ProperName(c)
    ensures Resolve("/" + a + "/" + b + "/" + c) == [a, b, c]
  {
    OneNamed(a);
    RenderName([a], b);
    RenderName([a, b], c);
    assert [a] + [b] == [a, b] && [a, b] + [c] == [a, b, c];
    ResolveRender([a, b, c]);
  }

  lemma {:induction false} NamesStayBelow(names: Path, m: Move)
    requires Proper(names)
    ensures Net(names, m).up == m.up
  {
    if names != [] {
      assert ProperName(names[0]);
      NamesStayBelow(names[1..], Then(m, names[0]));
    }
  }

  lemma NamedRest(k: string, x: string)
    requires ProperName(k) && ProperName(x)
    ensures StaysBelow("/" + k + "/" + x)
  {
    TwoNamed(k, x);
    OneNamed(k);
    RenderName([k], x);
    assert [k] + [x] == [k, x];
    SplitRender([k, x]);
    assert ([""] + [k, x])[1..] == [k, x];
    NamesStayBelow([k, x], STAY);
  }

  lemma TwoOwnDirs(binds: map<string, Bind>, m: string, n: string)
    requires m != n && binds.Keys == {m, n}
    requires |binds[m].dir| == |binds[n].dir| && binds[m].dir != binds[n].dir
    requires OtherName(binds[m].dir, binds[m].at) && OtherName(binds[n].dir, binds[n].at)
    ensures OwnDirs(binds)
  {
  }

  lemma DeeperDecides(binds: map<string, Bind>, m: string, n: string, q: Path)
    requires m != n && binds.Keys == {m, n} && binds[m].at < binds[n].at <= q
    ensures Decides(binds, n, q) && !NoneBetween(binds, m, q)
  {
  }

  /** A mount below the file's mount, on the way to the file, hides it. */
  lemma NestedHides(t: Tree, mountMap: map<string, string>, m: string, n: string, path: string)
    requires m != n && mountMap.Keys == {m, n} && CleanMountText(m) && Matches(m, path)
    requires Resolve(m) < Resolve(n) <= Resolve(path)
    requires |Resolve(mountMap[m])| == |Resolve(mountMap[n])| && Resolve(mountMap[m]) != Resolve(mountMap[n])
    requires OtherName(Resolve(mountMap[m]), Resolve(m)) && OtherName(Resolve(mountMap[n]), Resolve(n))
    ensures !Finds(t, mountMap, Resolve(path), LocalPath(mountMap, m, path))
    ensures Decides(BindsOf(mountMap), n, Resolve(path))
  {
    TwoOwnDirs(BindsOf(mountMap), m, n);
    DeeperDecides(BindsOf(mountMap), m, n, Resolve(path));
    LeadsToItsPlace(mountMap, m, path);
  }

  /** A second mount one name below hides what was placed through the first: the path leads to the second directory,
      although it goes on at a boundary and its rest stays below. */
  lemma NestedMountHides(t: Tree, mountMap: map<string, string>, d: string, k: string, x: string, a: string, b: string)
    requires ProperName(d) && ProperName(k) && ProperName(x) && ProperName(a) && ProperName(b)
    requires a != b && a != d && b != k && mountMap.Keys == {"/" + d, "/" + d + "/" + k}
    requires mountMap["/" + d] == "/" + "tmp" + "/" + a && mountMap["/" + d + "/" + k] == "/" + "tmp" + "/" + b
    ensures var (m, n, rest) := ("/" + d, "/" + d + "/" + k, "/" + k + "/" + x);
            && AtBoundary(m, rest) && StaysBelow(rest) && Matches(m, m + rest)
            && !Finds(t, mountMap, Resolve(m + rest), LocalPath(mountMap, m, m + rest))
            && Decides(BindsOf(mountMap), n, Resolve(m + rest))
  {
    var m, n, rest := "/" + d, "/" + d + "/" + k, "/" + k + "/" + x;
    OneNamed(d);
    TwoNamed(d, k);
    ThreeNamed(d, k, x);
    TwoNamed("tmp", a);
    TwoNamed("tmp", b);
    assert m + rest == n + "/" + x;
    assert [d] < [d, k] <= [d, k, x];
    NamedRest(k, x);
    NestedHides(t, mountMap, m, n, m + rest);
  }

  /** So "/data/keys/x" is not found at its path when it was placed through "/data" and "/data/keys" is a mount too. */
  lemma KeysAreHidden(t: Tree, mountMap: map<string, string>)
    requires mountMap.Keys == {"/data", "/data/keys"} && mountMap["/data"] == "/tmp/a" && mountMap["/data/keys"] == "/tmp/b"
    ensures AtBoundary("/data", "/keys/x") && StaysBelow("/keys/x") && Matches("/data", "/data/keys/x")
    ensures !Finds(t, mountMap, Resolve("/data/keys/x"), LocalPath(mountMap, "/data", "/data/keys/x"))
  {
    var d, k, x, a, b := "data", "keys", "x", "a", "b";
    assert "/" + d == "/data" && "/data" + "/" + k == "/data/keys" && "/" + k + "/" + x == "/keys/x";
    assert "/" + "tmp" + "/" + a == "/tmp/a" && "/" + "tmp" + "/" + b == "/tmp/b" && "/data" + "/keys/x" == "/data/keys/x";
    NestedMountHides(t, mountMap, d, k, x, a, b);
  }
}
