/** The file placement of Deploy: each mount gets a temporary directory, and each file goes into the directory of a mount
    that is a prefix of its path. The mounts are tried, and the files visited, in the arbitrary order of map iteration. */
module DockerFiles {
  import opened Wrappers
  import opened Paths
  import opened ContainerSpec

  // ---------- mounts ----------

  /** The directory was made for the last occurrence of the mount. */
  ghost predicate LastDir(mounts: seq<string>, tempDir: nat -> Option<string>, mount: string, dir: string) {
    exists i :: 0 <= i < |mounts| && mounts[i] == mount && tempDir(i) == Some(dir)
                && forall j :: i < j < |mounts| ==> mounts[j] != mount
  }

  lemma LastDirStays(mounts: seq<string>, tempDir: nat -> Option<string>, i: nat, m: string, dir: string)
    requires i < |mounts| && m != mounts[i] && LastDir(mounts[..i], tempDir, m, dir)
    ensures LastDir(mounts[..i + 1], tempDir, m, dir)
  {
    var k :| 0 <= k < i && mounts[..i][k] == m && tempDir(k) == Some(dir) && forall j :: k < j < i ==> mounts[..i][j] != m;
    assert mounts[..i + 1][k] == m;
  }

  /** Makes a temporary directory for each mount; tempDir(i) is the outcome of making the i-th. */
  method BuildMounts(mounts: seq<string>, tempDir: nat -> Option<string>) returns (r: Option<map<string, string>>)
    ensures r.Some? <==> forall i :: 0 <= i < |mounts| ==> tempDir(i).Some?
    ensures r.Some? ==> forall m :: m in r.value <==> m in mounts
    ensures r.Some? ==> forall m :: m in r.value ==> LastDir(mounts, tempDir, m, r.value[m])
  {
    var mountMap := map[];
    for i := 0 to |mounts|
      invariant forall j :: 0 <= j < i ==> tempDir(j).Some?
      invariant forall m :: m in mountMap <==> m in mounts[..i]
      invariant forall m :: m in mountMap ==> LastDir(mounts[..i], tempDir, m, mountMap[m])
    {
      var dir := tempDir(i);
      if dir.None? {
        return None;
      }
      forall m | m in mountMap && m != mounts[i]
        ensures LastDir(mounts[..i + 1], tempDir, m, mountMap[m])
      {
        LastDirStays(mounts, tempDir, i, m, mountMap[m]);
      }
      assert mounts[..i + 1][i] == mounts[i];
      mountMap := mountMap[mounts[i] := dir.value];
    }
    assert mounts[..|mounts|] == mounts;
    return Some(mountMap);
  }

  /** When the temporary directories are all new, no two mounts share one, also when a mount is listed twice. */
  lemma MountDirsDiffer(mounts: seq<string>, tempDir: nat -> Option<string>, m: string, n: string, dir: string)
    requires forall i, j :: 0 <= i < j < |mounts| && tempDir(i).Some? ==> tempDir(i) != tempDir(j)
    requires LastDir(mounts, tempDir, m, dir) && LastDir(mounts, tempDir, n, dir)
    ensures m == n
  {
    var i :| 0 <= i < |mounts| && mounts[i] == m && tempDir(i) == Some(dir);
    var j :| 0 <= j < |mounts| && mounts[j] == n && tempDir(j) == Some(dir);
    assert !(i < j) && !(j < i);
  }

  predicate Matches(mount: string, path: string) {
    mount <= path
  }

  /** The inner loop: the first match in some order over the mounts. */
  method FindMount(mountMap: map<string, string>, path: string) returns (mount: Option<string>)
    ensures mount.Some? ==> mount.value in mountMap && Matches(mount.value, path)
    ensures mount.None? <==> forall m :: m in mountMap ==> !Matches(m, path)
  {
    var untried := mountMap.Keys;
    while untried != {}
      invariant untried <= mountMap.Keys
      invariant forall m :: m in mountMap && m !in untried ==> !Matches(m, path)
      decreases untried
    {
      var m :| m in untried;
      if Matches(m, path) {
        return Some(m);
      }
      untried := untried - {m};
    }
    return None;
  }

  /** Where a file goes on the host. */
  function LocalPath(mountMap: map<string, string>, mount: string, path: string): Path
    requires mount in mountMap && Matches(mount, path)
  {
    Resolve(Join(mountMap[mount], path[|mount|..]))
  }

  /** Each file is assigned a mount that matches it. */
  ghost predicate IsPlacement(mounts: set<string>, paths: set<string>, chosen: map<string, string>) {
    chosen.Keys == paths && forall p :: p in paths ==> chosen[p] in mounts && Matches(chosen[p], p)
  }

  // ---------- the host's files ----------

  datatype Tree = Tree(dirs: set<Path>, files: map<Path, Content>)

  function Parent(l: Path): Path {
    if l == [] then [] else l[..|l| - 1]
  }

  function Prefixes(dir: Path): set<Path> {
    set k | 0 <= k <= |dir| :: dir[..k]
  }

  /** os.MkdirAll fails when a file stands where a directory is needed. */
  function MkdirAll(t: Tree, dir: Path): Option<Tree> {
    if exists a :: a in Prefixes(dir) && a in t.files then None
    else Some(t.(dirs := t.dirs + Prefixes(dir)))
  }

  /** ioutil.WriteFile fails on a directory and replaces a file. */
  function WriteFile(t: Tree, l: Path, content: Content): Option<Tree> {
    if l in t.dirs then None else Some(t.(files := t.files[l := content]))
  }

  /** What one round of the loop does to the host's files. */
  function Store(t: Tree, l: Path, content: Content): Option<Tree> {
    var made := MkdirAll(t, Parent(l));
    if made.None? then None else WriteFile(made.value, l, content)
  }

  /** Nothing is in the way of these files: no file on the host and none among them is needed as a directory, and none
      has the path of a directory. */
  ghost predicate Fits(t: Tree, locals: set<Path>) {
    && (forall l :: l in locals ==> l !in t.dirs)
    && (forall l, f :: l in locals && f in t.files ==> !(f < l))
    && (forall l, f :: l in locals && f in locals ==> !(f < l))
  }

  function Ancestors(locals: set<Path>): set<Path> {
    set l, a | l in locals && a in Prefixes(Parent(l)) :: a
  }

  /** Where the files go on the host once their mounts are chosen. */
  function Places(mountMap: map<string, string>, chosen: map<string, string>): map<string, Path>
    requires forall p :: p in chosen ==> chosen[p] in mountMap && Matches(chosen[p], p)
  {
    map p | p in chosen :: LocalPath(mountMap, chosen[p], p)
  }

  lemma PrefixesAre(dir: Path, a: Path)
    ensures a in Prefixes(dir) <==> a <= dir
  {
    if a <= dir {
      assert a == dir[..|a|];
    }
  }

  lemma ParentPrefixes(l: Path, a: Path)
    requires l != []
    ensures a in Prefixes(Parent(l)) <==> a < l
  {
    PrefixesAre(Parent(l), a);
    if a < l {
      assert a == l[..|a|] == Parent(l)[..|a|];
    }
  }

  /** When storing a file succeeds. */
  lemma StoreFits(now: Tree, l: Path, content: Content)
    requires [] in now.dirs
    ensures Store(now, l, content).Some? <==> l !in now.dirs && forall f :: f in now.files ==> !(f < l)
    ensures Store(now, l, content).Some? ==>
              Store(now, l, content) == Some(Tree(now.dirs + Prefixes(Parent(l)), now.files[l := content]))
  {
    PrefixesAre(Parent(l), l);
    if l != [] {
      forall f
        ensures f in Prefixes(Parent(l)) <==> f < l
      {
        ParentPrefixes(l, f);
      }
    }
  }

  /** Storing one more file succeeds exactly when nothing is in the way of it and those before. */
  lemma FitsMore(t: Tree, locals: set<Path>, l: Path)
    requires Fits(t, locals)
    ensures Fits(t, locals + {l}) <==>
            && l !in t.dirs && (forall f :: f in t.files ==> !(f < l))
            && forall f :: f in locals ==> !(f < l) && !(l < f)
  {
    assert l in locals + {l};
  }

  lemma StoreMore(t: Tree, locals: set<Path>, now: Tree, l: Path, content: Content)
    requires [] in t.dirs && Fits(t, locals)
    requires now.dirs == t.dirs + Ancestors(locals) && now.files.Keys == t.files.Keys + locals
    ensures Store(now, l, content).Some? <==> Fits(t, locals + {l})
    ensures Store(now, l, content).Some? ==>
              Store(now, l, content) == Some(Tree(t.dirs + Ancestors(locals + {l}), now.files[l := content]))
  {
    StoreFits(now, l, content);
    FitsMore(t, locals, l);
    AncestorsGrow(locals, l);
    if l != [] {
      AncestorsAre(locals, l);
    }
    assert now.dirs + Prefixes(Parent(l)) == t.dirs + Ancestors(locals + {l});
  }

  lemma AncestorsAre(locals: set<Path>, a: Path)
    requires a != []
    ensures a in Ancestors(locals) <==> exists l :: l in locals && a < l
  {
    forall l | l in locals
      ensures a in Prefixes(Parent(l)) <==> a < l
    {
      if l == [] {
        PrefixesAre([], a);
      } else {
        ParentPrefixes(l, a);
      }
    }
  }

  lemma AncestorsGrow(locals: set<Path>, l: Path)
    ensures Ancestors(locals + {l}) == Ancestors(locals) + Prefixes(Parent(l))
  {
  }

  // ---------- orders ----------

  ghost predicate IsOrder(order: seq<string>, paths: set<string>) {
    (forall p :: p in order <==> p in paths) && (forall i, j :: 0 <= i < j < |order| ==> order[i] != order[j])
  }

  /** The files that the host gets when they are visited in this order; of two with the same place the later one stays. */
  function DiskAfter(place: map<string, Path>, files: map<string, Content>, order: seq<string>): map<Path, Content>
    requires forall p :: p in order ==> p in place && p in files
  {
    if order == [] then map[]
    else
      var last := order[|order| - 1];
      DiskAfter(place, files, order[..|order| - 1])[place[last] := files[last]]
  }

  ghost predicate Stored(place: map<string, Path>, order: seq<string>, l: Path, p: string) {
    p in order && p in place && place[p] == l
  }

  /** What the host holds: only places of visited files, each with the content of a file that belongs there. */
  lemma {:induction false} DiskHolds(place: map<string, Path>, files: map<string, Content>, order: seq<string>, l: Path)
    requires forall p :: p in order ==> p in place && p in files
    ensures l in DiskAfter(place, files, order) <==> exists p :: Stored(place, order, l, p)
    ensures l in DiskAfter(place, files, order) ==>
              exists p :: Stored(place, order, l, p) && DiskAfter(place, files, order)[l] == files[p]
  {
    if order != [] {
      var init, last := order[..|order| - 1], order[|order| - 1];
      assert order == init + [last];
      DiskHolds(place, files, init, l);
      if place[last] == l {
        assert Stored(place, order, l, last);
      } else if l in DiskAfter(place, files, init) {
        var p :| Stored(place, init, l, p) && DiskAfter(place, files, init)[l] == files[p];
        assert Stored(place, order, l, p);
      } else {
        assert forall p :: Stored(place, order, l, p) ==> Stored(place, init, l, p);
      }
    }
  }

  lemma DiskKeys(place: map<string, Path>, files: map<string, Content>, order: seq<string>)
    requires IsOrder(order, place.Keys) && place.Keys <= files.Keys
    ensures DiskAfter(place, files, order).Keys == place.Values
  {
    forall l
      ensures l in DiskAfter(place, files, order) <==> l in place.Values
    {
      DiskHolds(place, files, order, l);
      if l in place.Values {
        var p :| p in place && place[p] == l;
        assert Stored(place, order, l, p);
      }
    }
  }

  // ---------- the outer loop ----------

  /** What the outer loop does. It stops at the first file that has no mount, that does not fit, or whose writing fails for
      another reason; writes(p) says whether nothing else goes wrong with p. */
  ghost predicate Attempt(t: Tree, mountMap: map<string, string>, files: map<string, Content>, writes: string -> bool,
                          ok: bool, chosen: map<string, string>, after: Tree)
  {
    && chosen.Keys <= files.Keys && IsPlacement(mountMap.Keys, chosen.Keys, chosen)
    && var place := Places(mountMap, chosen);
       && (ok <==> chosen.Keys == files.Keys && Fits(t, place.Values) && forall p :: p in chosen ==> writes(p))
       && (!ok ==> HasStray(mountMap, files.Keys) || !Fits(t, place.Values) || exists p :: p in chosen && !writes(p))
       && (ok ==> Placed(t, place, files, after))
  }

  /** Some file has no mount. */
  ghost predicate HasStray(mountMap: map<string, string>, paths: set<string>) {
    exists p :: p in paths && forall m :: m in mountMap ==> !Matches(m, p)
  }

  /** The host's files after all these were placed, in some order. */
  ghost predicate Placed(t: Tree, place: map<string, Path>, files: map<string, Content>, after: Tree)
    requires place.Keys <= files.Keys
  {
    exists order :: IsOrder(order, place.Keys)
                    && after == Tree(t.dirs + Ancestors(place.Values), t.files + DiskAfter(place, files, order))
  }

  lemma {:induction false} DiskKept(a: map<string, Path>, b: map<string, Path>, files: map<string, Content>, order: seq<string>)
    requires forall p :: p in order ==> p in a && p in b && a[p] == b[p] && p in files
    ensures DiskAfter(a, files, order) == DiskAfter(b, files, order)
  {
    if order != [] {
      DiskKept(a, b, files, order[..|order| - 1]);
    }
  }

  lemma OrderGrows(order: seq<string>, paths: set<string>, path: string)
    requires IsOrder(order, paths) && path !in paths
    ensures IsOrder(order + [path], paths + {path})
  {
  }

  lemma DiskGrows(place: map<string, Path>, files: map<string, Content>, order: seq<string>, path: string, l: Path)
    requires IsOrder(order, place.Keys) && place.Keys <= files.Keys && path in files && path !in place
    ensures IsOrder(order + [path], place[path := l].Keys)
    ensures DiskAfter(place[path := l], files, order + [path]) == DiskAfter(place, files, order)[l := files[path]]
  {
    assert place[path := l].Keys == place.Keys + {path};
    OrderGrows(order, place.Keys, path);
    assert (order + [path])[..|order|] == order;
    DiskKept(place, place[path := l], files, order);
  }

  lemma ValuesGrow(place: map<string, Path>, path: string, l: Path)
    requires path !in place
    ensures place[path := l].Values == place.Values + {l}
  {
    var more := place[path := l];
    assert more[path] == l;
    assert forall p :: p in place ==> more[p] == place[p];
  }

  lemma Merge(files: map<Path, Content>, disk: map<Path, Content>, l: Path, content: Content)
    ensures (files + disk)[l := content] == files + disk[l := content]
  {
  }

  /** One more file. */
  lemma PlaceOne(t: Tree, place: map<string, Path>, files: map<string, Content>, now: Tree, path: string, l: Path)
    requires place.Keys <= files.Keys && path in files && path !in place
    requires [] in t.dirs && Fits(t, place.Values) && Placed(t, place, files, now)
    ensures var stored := Store(now, l, files[path]);
            && (stored.Some? <==> Fits(t, place[path := l].Values))
            && (stored.Some? ==> Placed(t, place[path := l], files, stored.value))
  {
    var order :| IsOrder(order, place.Keys)
                 && now == Tree(t.dirs + Ancestors(place.Values), t.files + DiskAfter(place, files, order));
    DiskKeys(place, files, order);
    ValuesGrow(place, path, l);
    StoreMore(t, place.Values, now, l, files[path]);
    DiskGrows(place, files, order, path, l);
    Merge(t.files, DiskAfter(place, files, order), l, files[path]);
  }

  lemma PlacesGrow(mountMap: map<string, string>, chosen: map<string, string>, path: string, mount: string)
    requires forall p :: p in chosen ==> chosen[p] in mountMap && Matches(chosen[p], p)
    requires path !in chosen && mount in mountMap && Matches(mount, path)
    ensures Places(mountMap, chosen[path := mount])
            == Places(mountMap, chosen)[path := LocalPath(mountMap, mount, path)]
  {
  }

  /** All files visited so far were placed. */
  ghost predicate SoFar(t: Tree, mountMap: map<string, string>, files: map<string, Content>, writes: string -> bool,
                        chosen: map<string, string>, now: Tree)
  {
    && [] in t.dirs && chosen.Keys <= files.Keys && IsPlacement(mountMap.Keys, chosen.Keys, chosen)
    && (forall p :: p in chosen ==> writes(p))
    && Fits(t, Places(mountMap, chosen).Values) && Placed(t, Places(mountMap, chosen), files, now)
  }

  lemma RoundStores(t: Tree, mountMap: map<string, string>, files: map<string, Content>, writes: string -> bool,
                    chosen: map<string, string>, now: Tree, path: string, mount: string)
    requires SoFar(t, mountMap, files, writes, chosen, now)
    requires path in files && path !in chosen && mount in mountMap && Matches(mount, path)
    ensures var stored := Store(now, LocalPath(mountMap, mount, path), files[path]);
            var place := Places(mountMap, chosen[path := mount]);
            && (stored.Some? <==> Fits(t, place.Values)) && (stored.Some? ==> Placed(t, place, files, stored.value))
  {
    PlaceOne(t, Places(mountMap, chosen), files, now, path, LocalPath(mountMap, mount, path));
    PlacesGrow(mountMap, chosen, path, mount);
  }

  lemma ChoiceGrows(mountMap: map<string, string>, chosen: map<string, string>, path: string, mount: string)
    requires IsPlacement(mountMap.Keys, chosen.Keys, chosen) && mount in mountMap && Matches(mount, path)
    ensures IsPlacement(mountMap.Keys, chosen[path := mount].Keys, chosen[path := mount])
    ensures chosen[path := mount].Keys == chosen.Keys + {path}
  {
  }

  lemma FailedAttempt(t: Tree, mountMap: map<string, string>, files: map<string, Content>, writes: string -> bool,
                      chosen: map<string, string>, now: Tree)
    requires chosen.Keys <= files.Keys && IsPlacement(mountMap.Keys, chosen.Keys, chosen)
    requires !Fits(t, Places(mountMap, chosen).Values) || exists p :: p in chosen && !writes(p)
    ensures Attempt(t, mountMap, files, writes, false, chosen, now)
  {
  }

  lemma RoundSucceeds(t: Tree, mountMap: map<string, string>, files: map<string, Content>, writes: string -> bool,
                       chosen: map<string, string>, now: Tree, path: string, mount: string)
    requires SoFar(t, mountMap, files, writes, chosen, now)
    requires path in files && path !in chosen && mount in mountMap && Matches(mount, path)
    requires writes(path) && Store(now, LocalPath(mountMap, mount, path), files[path]).Some?
    ensures SoFar(t, mountMap, files, writes, chosen[path := mount],
                  Store(now, LocalPath(mountMap, mount, path), files[path]).value)
  {
    RoundStores(t, mountMap, files, writes, chosen, now, path, mount);
    ChoiceGrows(mountMap, chosen, path, mount);
  }

  lemma RoundFails(t: Tree, mountMap: map<string, string>, files: map<string, Content>, writes: string -> bool,
                   chosen: map<string, string>, now: Tree, path: string, mount: string)
    requires SoFar(t, mountMap, files, writes, chosen, now)
    requires path in files && path !in chosen && mount in mountMap && Matches(mount, path)
    requires !writes(path) || Store(now, LocalPath(mountMap, mount, path), files[path]).None?
    ensures Attempt(t, mountMap, files, writes, false, chosen[path := mount], now)
  {
    RoundStores(t, mountMap, files, writes, chosen, now, path, mount);
    ChoiceGrows(mountMap, chosen, path, mount);
    assert path in chosen[path := mount];
    FailedAttempt(t, mountMap, files, writes, chosen[path := mount], now);
  }

  /** The outer loop, with the host's root directory in place. */
  method PlaceFiles(t: Tree, mountMap: map<string, string>, files: map<string, Content>, writes: string -> bool)
    returns (ok: bool, chosen: map<string, string>, after: Tree)
    requires [] in t.dirs
    ensures Attempt(t, mountMap, files, writes, ok, chosen, after)
  {
    var todo := files.Keys;
    chosen, after := map[], t;
    NothingPlaced(t, files);
    assert Places(mountMap, chosen) == map[];
    while todo != {}
      invariant todo <= files.Keys && chosen.Keys == files.Keys - todo
      invariant SoFar(t, mountMap, files, writes, chosen, after)
      decreases todo
    {
      var path :| path in todo;
      var mount := FindMount(mountMap, path);
      if mount.None? {
        assert HasStray(mountMap, files.Keys) && path !in chosen;
        return false, chosen, after;
      }
      var stored := Store(after, LocalPath(mountMap, mount.value, path), files[path]);
      if stored.None? || !writes(path) {
        RoundFails(t, mountMap, files, writes, chosen, after, path, mount.value);
        return false, chosen[path := mount.value], after;
      }
      RoundSucceeds(t, mountMap, files, writes, chosen, after, path, mount.value);
      chosen, after, todo := chosen[path := mount.value], stored.value, todo - {path};
    }
    ok := true;
  }

  lemma NothingPlaced(t: Tree, files: map<string, Content>)
    ensures Fits(t, {}) && Placed(t, map[], files, t)
  {
    var none: map<string, Path> := map[];
    assert IsOrder([], none.Keys);
    assert t == Tree(t.dirs + Ancestors(none.Values), t.files + DiskAfter(none, files, []));
  }
}
