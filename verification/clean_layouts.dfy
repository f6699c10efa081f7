/** Layouts in which nothing of the file placement is left to chance: clean mounts with new sibling directories, and clean
    file paths below them. The container then sees exactly its files, each at its own path. */
module CleanLayouts {
  import opened Wrappers
  import opened Paths
  import opened ContainerSpec
  import opened DockerFiles
  import opened PlacementOrder
  import opened BindMounts
  import opened ContainerFiles

  // ---------- files that stay below their mounts ----------

  ghost predicate Siblings(mountMap: map<string, string>) {
    forall m, n {:trigger Resolve(mountMap[m]), Resolve(mountMap[n])} :: m in mountMap && n in mountMap ==>
      && |Resolve(mountMap[m])| == |Resolve(mountMap[n])|
      && (Resolve(mountMap[m]) == Resolve(mountMap[n]) ==> m == n)
  }

  ghost predicate AllStayBelow(mountMap: map<string, string>, paths: set<string>) {
    forall m, p {:trigger StaysBelow(p[|m|..])} :: m in mountMap && p in paths && Matches(m, p) ==> StaysBelow(p[|m|..])
  }

  /** The two paths differ at most in how they spell the rest after the mount. */
  ghost predicate SameFile(mountMap: map<string, string>, p: string, q: string) {
    exists m :: m in mountMap && Matches(m, p) && Matches(m, q) && Descent(p[|m|..]).down == Descent(q[|m|..]).down
  }

  lemma MeetIsSameFile(mountMap: map<string, string>, paths: set<string>, p: string, q: string)
    requires Siblings(mountMap) && AllStayBelow(mountMap, paths) && p in paths && q in paths
    ensures Meet(CandidatesOf(mountMap, paths), p, q) <==> SameFile(mountMap, p, q)
  {
    var can := CandidatesOf(mountMap, paths);
    if Meet(can, p, q) {
      var l :| l in can[p] && l in can[q];
      var m :| m in mountMap && Matches(m, p) && LocalPath(mountMap, m, p) == l;
      var n :| n in mountMap && Matches(n, q) && LocalPath(mountMap, n, q) == l;
      assert StaysBelow(p[|m|..]) && StaysBelow(q[|n|..]);
      SamePlace(mountMap, m, p, n, q);
    }
    if SameFile(mountMap, p, q) {
      var m :| m in mountMap && Matches(m, p) && Matches(m, q) && Descent(p[|m|..]).down == Descent(q[|m|..]).down;
      assert StaysBelow(p[|m|..]) && StaysBelow(q[|m|..]);
      SamePlace(mountMap, m, p, m, q);
      assert LocalPath(mountMap, m, p) in can[p] && LocalPath(mountMap, m, p) in can[q];
    }
  }

  /** With mounts that are no prefix of each other, sibling directories and rests that stay below their mounts, the host
      ends up with the same files for every order exactly when no two files of different content have the same mount and
      the same cleaned rest. */
  lemma CleanedRestsDecide(mountMap: map<string, string>, files: map<string, Content>)
    requires PrefixFree(mountMap.Keys) && Siblings(mountMap) && AllStayBelow(mountMap, files.Keys)
    ensures OneOutcome(CandidatesOf(mountMap, files.Keys), files) <==>
            (AllPlaceable(CandidatesOf(mountMap, files.Keys)) ==>
               forall p, q :: p in files && q in files && SameFile(mountMap, p, q) ==> files[p] == files[q])
  {
    PrefixFreeOutcome(mountMap, files);
    forall p, q | p in files && q in files
      ensures Meet(CandidatesOf(mountMap, files.Keys), p, q) <==> SameFile(mountMap, p, q)
    {
      MeetIsSameFile(mountMap, files.Keys, p, q);
    }
  }

  /** Two spellings of one path: the mount choice is fixed, and still the later of the two files wins. */
  lemma TwoSpellings(mountMap: map<string, string>, files: map<string, Content>)
    requires mountMap.Keys == {"/data"} && files.Keys == {"/data/a", "/data//a"} && files["/data/a"] != files["/data//a"]
    ensures !OneOutcome(CandidatesOf(mountMap, files.Keys), files)
  {
    var can, l := CandidatesOf(mountMap, files.Keys), LocalPath(mountMap, "/data", "/data/a");
    assert "/data/a"[5..] == "/a" && "/data//a"[5..] == "//a" && "/" + "/a" == "//a";
    JoinWalks(mountMap["/data"], "/a");
    JoinWalks(mountMap["/data"], "//a");
    SplitSlash("/a");
    WalkSlash(Split("/a"), Resolve(mountMap["/data"]));
    assert Matches("/data", "/data/a") && Matches("/data", "/data//a");
    assert l in can["/data/a"] && l in can["/data//a"];
    assert Meet(can, "/data/a", "/data//a");
    PrefixFreeOutcome(mountMap, files);
  }

  // ---------- clean layouts ----------

  ghost predicate CleanMount(mountMap: map<string, string>, m: string)
    requires m in mountMap
  {
    && CleanPath(m)
    && forall n :: n in mountMap ==>
         && |Resolve(mountMap[m])| == |Resolve(mountMap[n])|
         && (Resolve(mountMap[m]) == Resolve(mountMap[n]) ==> m == n)
  }

  /** The file has a clean path that goes on after one of the mounts with a slash. */
  ghost predicate CleanFile(mounts: set<string>, p: string) {
    CleanPath(p) && exists m :: m in mounts && m + "/" <= p
  }

  /** No file is needed as a directory of another. */
  ghost predicate NoneUnder(paths: set<string>) {
    forall p, q {:trigger Resolve(p), Resolve(q)} :: p in paths && q in paths ==> !(Resolve(p) < Resolve(q))
  }

  ghost predicate CleanLayout(mountMap: map<string, string>, paths: set<string>) {
    && PrefixFree(mountMap.Keys) && NoneUnder(paths)
    && (forall m {:trigger CleanMount(mountMap, m)} :: m in mountMap ==> CleanMount(mountMap, m))
    && (forall p {:trigger CleanFile(mountMap.Keys, p)} :: p in paths ==> CleanFile(mountMap.Keys, p))
  }

  /** A directory that has just been made: it is there and empty. */
  ghost predicate NewDir(t: Tree, dir: Path) {
    && (forall d :: d in t.dirs ==> !(dir < d))
    && (forall f :: f in t.files ==> !(dir <= f) && !(f <= dir))
  }

  ghost predicate NewDirs(t: Tree, mountMap: map<string, string>) {
    forall m {:trigger Resolve(mountMap[m])} :: m in mountMap ==> NewDir(t, Resolve(mountMap[m]))
  }

  // ---------- where the files go ----------

  lemma CleanPlace(mountMap: map<string, string>, paths: set<string>, p: string, m: string)
    requires CleanLayout(mountMap, paths) && p in paths && m in mountMap && Matches(m, p)
    ensures Resolve(m) < Resolve(p)
    ensures LocalPath(mountMap, m, p) == Resolve(mountMap[m]) + Resolve(p)[|Resolve(m)|..]
  {
    assert CleanFile(mountMap.Keys, p) && CleanMount(mountMap, m);
    var n :| n in mountMap && n + "/" <= p;
    assert n <= n + "/";
    DisjointMountsNeverCompete(mountMap.Keys, p, m, n);
    CleanBelow(m, p);
    JoinWalks(mountMap[m], p[|m|..]);
  }

  lemma PrefixOfBoth(a: Path, b: Path, c: Path)
    requires a <= c && b <= c
    ensures a <= b || b <= a
  {
    if |a| <= |b| {
      assert a == c[..|a|] == b[..|a|];
    } else {
      assert b == c[..|b|] == a[..|b|];
    }
  }

  /** The file is in nobody's way on the host. */
  lemma PlaceIsFree(t: Tree, dir: Path, below: Path)
    requires NewDir(t, dir) && below != []
    ensures dir + below !in t.dirs && forall f :: f in t.files ==> !(f < dir + below)
  {
    assert dir < dir + below;
    forall f | f in t.files && f < dir + below
      ensures false
    {
      PrefixOfBoth(f, dir, dir + below);
    }
  }

  lemma TailsCompare(a: Path, cm: Path, b: Path)
    requires cm <= a && cm <= b && a[|cm|..] <= b[|cm|..]
    ensures a <= b && (a[|cm|..] == b[|cm|..] ==> a == b)
  {
    assert a == cm + a[|cm|..] && b == cm + b[|cm|..];
  }

  lemma SameDir(d: Path, a: Path, e: Path, b: Path)
    requires |d| == |e| && d + a <= e + b
    ensures d == e && a <= b
  {
    assert d == (d + a)[..|d|] == (e + b)[..|e|] == e;
    assert a == (d + a)[|d|..] && b == (e + b)[|e|..];
  }

  /** Only the file itself goes to its place or to a place below it. */
  lemma PlacesApart(mountMap: map<string, string>, paths: set<string>, p: string, m: string, q: string, n: string)
    requires CleanLayout(mountMap, paths) && p in paths && q in paths
    requires m in mountMap && Matches(m, p) && n in mountMap && Matches(n, q)
    requires LocalPath(mountMap, m, p) <= LocalPath(mountMap, n, q)
    ensures p == q && m == n
  {
    CleanPlace(mountMap, paths, p, m);
    CleanPlace(mountMap, paths, q, n);
    assert CleanMount(mountMap, m) && CleanFile(mountMap.Keys, p) && CleanFile(mountMap.Keys, q);
    SameDir(Resolve(mountMap[m]), Resolve(p)[|Resolve(m)|..], Resolve(mountMap[n]), Resolve(q)[|Resolve(n)|..]);
    TailsCompare(Resolve(p), Resolve(m), Resolve(q));
    assert Resolve(p) == Resolve(q);
  }

  // ---------- success and outcome ----------

  lemma CleanFits(t: Tree, mountMap: map<string, string>, paths: set<string>, chosen: map<string, string>)
    requires CleanLayout(mountMap, paths) && NewDirs(t, mountMap)
    requires chosen.Keys <= paths && IsPlacement(mountMap.Keys, chosen.Keys, chosen)
    ensures Fits(t, Places(mountMap, chosen).Values)
  {
    var place := Places(mountMap, chosen);
    forall l | l in place.Values
      ensures l !in t.dirs && forall f :: f in t.files ==> !(f < l)
    {
      var p :| p in place && place[p] == l;
      CleanPlace(mountMap, paths, p, chosen[p]);
      PlaceIsFree(t, Resolve(mountMap[chosen[p]]), Resolve(p)[|Resolve(chosen[p])|..]);
    }
    forall l, f | l in place.Values && f in place.Values
      ensures !(f < l)
    {
      var p, q :| p in place && place[p] == l && q in place && place[q] == f;
      if f < l {
        PlacesApart(mountMap, paths, q, chosen[q], p, chosen[p]);
      }
    }
  }

  lemma NoStray(mountMap: map<string, string>, paths: set<string>)
    requires CleanLayout(mountMap, paths)
    ensures !HasStray(mountMap, paths)
  {
    forall p | p in paths
      ensures exists m :: m in mountMap && Matches(m, p)
    {
      assert CleanFile(mountMap.Keys, p);
      var m :| m in mountMap && m + "/" <= p;
      assert m <= m + "/";
      assert Matches(m, p);
    }
  }

  /** In a clean layout the placement succeeds exactly when no writing fails for a reason of its own. */
  lemma CleanSucceeds(t: Tree, mountMap: map<string, string>, files: map<string, Content>, writes: string -> bool,
                      ok: bool, chosen: map<string, string>, after: Tree)
    requires CleanLayout(mountMap, files.Keys) && NewDirs(t, mountMap)
    requires Attempt(t, mountMap, files, writes, ok, chosen, after)
    ensures ok <==> forall p :: p in files ==> writes(p)
  {
    CleanFits(t, mountMap, files.Keys, chosen);
    NoStray(mountMap, files.Keys);
  }

  /** And leaves the same files on the host for every order of mounts and files. */
  lemma CleanOneOutcome(mountMap: map<string, string>, files: map<string, Content>)
    requires CleanLayout(mountMap, files.Keys)
    ensures OneOutcome(CandidatesOf(mountMap, files.Keys), files)
  {
    var can := CandidatesOf(mountMap, files.Keys);
    forall p, q | Meet(can, p, q)
      ensures files[p] == files[q]
    {
      var l :| l in can[p] && l in can[q];
      var m :| m in mountMap && Matches(m, p) && LocalPath(mountMap, m, p) == l;
      var n :| n in mountMap && Matches(n, q) && LocalPath(mountMap, n, q) == l;
      PlacesApart(mountMap, files.Keys, p, m, q, n);
    }
    PrefixFreeOutcome(mountMap, files);
  }

  // ---------- what the container sees ----------

  /** What a container finds at a path, when dir is mounted at mount. */
  function FileAt(t: Tree, dir: Path, mount: Path, q: Path): Option<Content> {
    if mount <= q && dir + q[|mount|..] in t.files then Some(t.files[dir + q[|mount|..]]) else None
  }

  /** On the host each file is in its place, and the mounts' directories hold nothing else. */
  lemma CleanHost(t: Tree, mountMap: map<string, string>, files: map<string, Content>, writes: string -> bool,
                  chosen: map<string, string>, after: Tree, l: Path)
    requires CleanLayout(mountMap, files.Keys) && Attempt(t, mountMap, files, writes, true, chosen, after)
    ensures forall p :: p in files && Places(mountMap, chosen)[p] == l ==> l in after.files && after.files[l] == files[p]
    ensures l in after.files && l !in t.files ==> exists p :: p in files && Places(mountMap, chosen)[p] == l
  {
    var place := Places(mountMap, chosen);
    var order :| IsOrder(order, place.Keys)
                 && after == Tree(t.dirs + Ancestors(place.Values), t.files + DiskAfter(place, files, order));
    DiskHolds(place, files, order, l);
    forall p | p in files && place[p] == l
      ensures l in after.files && after.files[l] == files[p]
    {
      assert Stored(place, order, l, p);
      var q :| Stored(place, order, l, q) && DiskAfter(place, files, order)[l] == files[q];
      PlacesApart(mountMap, files.Keys, p, chosen[p], q, chosen[q]);
    }
  }

  /** The container finds each file at its own path. */
  lemma CleanFound(t: Tree, mountMap: map<string, string>, files: map<string, Content>, writes: string -> bool,
                   chosen: map<string, string>, after: Tree, p: string)
    requires CleanLayout(mountMap, files.Keys) && Attempt(t, mountMap, files, writes, true, chosen, after) && p in files
    ensures FileAt(after, Resolve(mountMap[chosen[p]]), Resolve(chosen[p]), Resolve(p)) == Some(files[p])
  {
    CleanPlace(mountMap, files.Keys, p, chosen[p]);
    CleanHost(t, mountMap, files, writes, chosen, after, LocalPath(mountMap, chosen[p], p));
  }

  lemma NoMountBetween(mountMap: map<string, string>, paths: set<string>, m: string, q: Path)
    requires CleanLayout(mountMap, paths) && m in mountMap
    ensures NoneBetween(BindsOf(mountMap), m, q)
  {
    forall n | n in mountMap && n != m
      ensures !(Resolve(m) <= Resolve(n))
    {
      assert CleanMount(mountMap, m) && CleanMount(mountMap, n);
      if Resolve(m) <= Resolve(n) {
        RenderPrefix(Resolve(m), Resolve(n));
        assert Matches(m, n);
      }
    }
  }

  /** Also over all binds: no other mount decides the file's path. */
  lemma CleanFoundByAll(t: Tree, mountMap: map<string, string>, files: map<string, Content>, writes: string -> bool,
                        chosen: map<string, string>, after: Tree, p: string)
    requires CleanLayout(mountMap, files.Keys) && Attempt(t, mountMap, files, writes, true, chosen, after) && p in files
    ensures Finds(after, mountMap, Resolve(p), LocalPath(mountMap, chosen[p], p))
  {
    var binds, m, q := BindsOf(mountMap), chosen[p], Resolve(p);
    var host := LocalPath(mountMap, m, p);
    CleanPlace(mountMap, files.Keys, p, m);
    PlacedIsThere(t, mountMap, files, writes, chosen, after, p);
    NoMountBetween(mountMap, files.Keys, m, q);
    assert CleanMount(mountMap, m);
    forall n | n in binds && n != m && binds[n].at <= q
      ensures Through(binds[n], q) != host
    {
      assert Through(binds[n], q)[..|binds[n].dir|] == binds[n].dir && host[..|binds[m].dir|] == binds[m].dir;
    }
    OneBindLeads(binds, m, q, host);
  }

  /** And below a mount it finds nothing else. */
  lemma CleanNothingElse(t: Tree, mountMap: map<string, string>, files: map<string, Content>, writes: string -> bool,
                         chosen: map<string, string>, after: Tree, m: string, q: Path)
    requires CleanLayout(mountMap, files.Keys) && NewDirs(t, mountMap)
    requires Attempt(t, mountMap, files, writes, true, chosen, after)
    requires m in mountMap && FileAt(after, Resolve(mountMap[m]), Resolve(m), q).Some?
    ensures exists p :: p in files && chosen[p] == m && Resolve(p) == q
  {
    var l := Resolve(mountMap[m]) + q[|Resolve(m)|..];
    assert NewDir(t, Resolve(mountMap[m]));
    CleanHost(t, mountMap, files, writes, chosen, after, l);
    var p :| p in files && Places(mountMap, chosen)[p] == l;
    OnlyPath(mountMap, files.Keys, p, chosen[p], m, q);
  }

  lemma OnlyPath(mountMap: map<string, string>, paths: set<string>, p: string, n: string, m: string, q: Path)
    requires CleanLayout(mountMap, paths) && p in paths && n in mountMap && Matches(n, p)
    requires m in mountMap && Resolve(m) <= q
    requires LocalPath(mountMap, n, p) == Resolve(mountMap[m]) + q[|Resolve(m)|..]
    ensures n == m && Resolve(p) == q
  {
    var cm := Resolve(m);
    CleanPlace(mountMap, paths, p, n);
    assert CleanMount(mountMap, m);
    SameDir(Resolve(mountMap[m]), q[|cm|..], Resolve(mountMap[n]), Resolve(p)[|Resolve(n)|..]);
    assert Resolve(p) == cm + Resolve(p)[|cm|..] && q == cm + q[|cm|..];
  }

  /** The files that a container finds below its mount. */
  ghost predicate IsView(seen: map<string, Content>, t: Tree, dir: Path, mount: string) {
    forall s :: SeenAt(seen, t, dir, mount, s)
  }

  ghost predicate SeenAt(seen: map<string, Content>, t: Tree, dir: Path, mount: string, s: string) {
    && (s in seen <==> CleanPath(s) && mount + "/" <= s && FileAt(t, dir, Resolve(mount), Resolve(s)).Some?)
    && (s in seen ==> FileAt(t, dir, Resolve(mount), Resolve(s)) == Some(seen[s]))
  }

  /** With one clean mount the container sees exactly the files of its description. */
  lemma ContainerSeesItsFiles(t: Tree, mount: string, dir: string, files: map<string, Content>, writes: string -> bool,
                              chosen: map<string, string>, after: Tree, seen: map<string, Content>)
    requires CleanLayout(map[mount := dir], files.Keys) && NewDir(t, Resolve(dir))
    requires Attempt(t, map[mount := dir], files, writes, true, chosen, after)
    ensures IsView(seen, after, Resolve(dir), mount) <==> seen == files
  {
    if seen == files {
      forall s
        ensures SeenAt(files, after, Resolve(dir), mount, s)
      {
        SeenPath(t, mount, dir, files, writes, chosen, after, s);
      }
    }
    if IsView(seen, after, Resolve(dir), mount) {
      forall s
        ensures s in seen <==> s in files
        ensures s in seen && s in files ==> seen[s] == files[s]
      {
        assert SeenAt(seen, after, Resolve(dir), mount, s);
        SeenPath(t, mount, dir, files, writes, chosen, after, s);
      }
      assert seen.Keys == files.Keys;
    }
  }

  lemma SeenPath(t: Tree, mount: string, dir: string, files: map<string, Content>, writes: string -> bool,
                 chosen: map<string, string>, after: Tree, s: string)
    requires CleanLayout(map[mount := dir], files.Keys) && NewDir(t, Resolve(dir))
    requires Attempt(t, map[mount := dir], files, writes, true, chosen, after)
    ensures SeenAt(files, after, Resolve(dir), mount, s)
  {
    var mountMap := map[mount := dir];
    if s in files {
      assert CleanFile(mountMap.Keys, s) && chosen[s] == mount;
      CleanFound(t, mountMap, files, writes, chosen, after, s);
    }
    if CleanPath(s) && FileAt(after, Resolve(dir), Resolve(mount), Resolve(s)).Some? {
      CleanNothingElse(t, mountMap, files, writes, chosen, after, mount, Resolve(s));
      var p :| p in files && Resolve(p) == Resolve(s);
      assert CleanFile(mountMap.Keys, p);
      assert s == p;
    }
  }
}
