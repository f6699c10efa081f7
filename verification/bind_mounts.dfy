/** Bind mounts: what of the files on the host a container sees, and under which path. */
module BindMounts {
  import opened Wrappers
  import opened Paths
  import opened DockerFiles

  /** The path under which the container sees a path of the host, when dir is mounted at mount. */
  function Seen(dir: Path, mount: Path, host: Path): Option<Path> {
    if dir <= host then Some(mount + host[|dir|..]) else None
  }

  /** The path goes on where a component of the mount has ended. */
  predicate AtBoundary(mount: string, rest: string) {
    mount == "" || mount[|mount| - 1] == '/' || rest == "" || rest[0] == '/'
  }

  lemma FirstPart(rest: string)
    ensures Split(rest)[0] == "" <==> rest == "" || rest[0] == '/'
  {
  }

  lemma LastPart(mount: string)
    requires mount == "" || mount[|mount| - 1] == '/'
    ensures Split(mount)[|Split(mount)| - 1] == ""
  {
    if mount != "" {
      SplitAppend(mount[..|mount| - 1], "");
      assert mount == mount[..|mount| - 1] + "/" + "";
    }
  }

  lemma JoinedEmptyFirst(a: seq<string>, b: seq<string>)
    requires |a| > 0 && |b| > 0 && b[0] == ""
    ensures Joined(a, b) == a + b[1..] && b == [""] + b[1..]
  {
    assert a[|a| - 1] + "" == a[|a| - 1];
    assert a == a[..|a| - 1] + [a[|a| - 1]];
  }

  lemma JoinedEmptyLast(a: seq<string>, b: seq<string>)
    requires |a| > 0 && |b| > 0 && a[|a| - 1] == ""
    ensures Joined(a, b) == a[..|a| - 1] + b && a == a[..|a| - 1] + [""]
  {
    assert "" + b[0] == b[0];
    assert b == [b[0]] + b[1..];
  }

  /** Where a path leads that goes on at a boundary of its mount. */
  lemma BoundaryWalks(mount: string, rest: string)
    requires AtBoundary(mount, rest)
    ensures Resolve(mount + rest) == Walk(Split(rest), Resolve(mount))
  {
    var a, b := Split(mount), Split(rest);
    SplitConcat(mount, rest);
    FirstPart(rest);
    if b[0] == "" {
      JoinedEmptyFirst(a, b);
      WalkAppend(a, b[1..], []);
      WalkSlash(b[1..], Resolve(mount));
    } else {
      LastPart(mount);
      JoinedEmptyLast(a, b);
      WalkAppend(a[..|a| - 1], b, []);
      WalkAppend(a[..|a| - 1], [""], []);
      assert [""][1..] == [];
    }
  }

  lemma NameGoesOn(name: string, first: string)
    requires ProperName(name) && '/' !in first
    ensures ProperName(name + first)
  {
    assert (name + first)[0] == name[0];
    assert first == "" ==> name + first == name;
    assert |name| == 1 ==> name == [name[0]];
  }

  lemma JoinedMiddle(cm: Path, b: seq<string>)
    requires cm != [] && |b| > 0
    ensures Joined([""] + cm, b) == [""] + cm[..|cm| - 1] + ([cm[|cm| - 1] + b[0]] + b[1..])
  {
    var a := [""] + cm;
    assert a[..|a| - 1] == [""] + cm[..|cm| - 1] && a[|a| - 1] == cm[|cm| - 1];
  }

  /** Where a path leads that goes on in the middle of the last name of its mount. */
  lemma MiddleWalks(cm: Path, rest: string)
    requires Proper(cm) && cm != []
    ensures var (name, parts) := (cm[|cm| - 1] + Split(rest)[0], Split(rest));
            ProperName(name) && Resolve(Render(cm) + rest) == Walk(parts[1..], cm[..|cm| - 1] + [name])
  {
    var b, init, last := Split(rest), cm[..|cm| - 1], cm[|cm| - 1];
    var name := last + b[0];
    SplitHasNoSlashes(rest);
    NameGoesOn(last, b[0]);
    SplitRender(cm);
    SplitConcat(Render(cm), rest);
    JoinedMiddle(cm, b);
    ProperPrefixWalks(init, name, b[1..]);
  }

  lemma ProperPrefixWalks(init: Path, name: string, parts: seq<string>)
    requires Proper(init) && ProperName(name)
    ensures Walk([""] + init + ([name] + parts), []) == Walk(parts, init + [name])
  {
    WalkAppend([""] + init, [name] + parts, []);
    WalkSlash(init, []);
    WalkProper(init, []);
    assert ([name] + parts)[1..] == parts && [] + init == init;
  }

  // ---------- when the two paths meet ----------

  /** A walk that left the directory and is seen again under it has come back by the directory's own names. */
  lemma ComesBack(dir: Path, k: nat, down: Path, mount: Path, before: Path)
    requires k <= |dir| && Seen(dir, mount, dir[..k] + down) == Some(before + down)
    ensures mount == before + dir[k..]
  {
    var host := dir[..k] + down;
    var e := host[|dir|..];
    assert down == host[k..] == dir[k..] + e;
    assert before + down == (before + dir[k..]) + e;
    assert mount == (mount + e)[..|mount + e| - |e|] == (before + dir[k..] + e)[..|mount + e| - |e|];
  }

  lemma LastNames(cm: Path, before: Path, back: Path)
    requires cm == before + back && back != []
    ensures cm != [] && cm[|cm| - 1] == back[|back| - 1]
  {
  }

  predicate OtherName(dir: Path, cm: Path) {
    dir != [] && (cm == [] || dir[|dir| - 1] != cm[|cm| - 1])
  }

  lemma BoundaryMeets(dir: Path, cm: Path, m: Move)
    requires OtherName(dir, cm)
    ensures Seen(dir, cm, Apply(m, dir)) == Some(Apply(m, cm)) <==> m.up == 0
  {
    var k := Kept(dir, m.up);
    if m.up == 0 {
      assert dir[..k] == dir && cm[..|cm|] == cm;
      assert (dir + m.down)[|dir|..] == m.down;
    } else if Seen(dir, cm, Apply(m, dir)) == Some(Apply(m, cm)) {
      ComesBack(dir, k, m.down, cm, cm[..Kept(cm, m.up)]);
      LastNames(cm, cm[..Kept(cm, m.up)], dir[k..]);
    }
  }

  /** Behind the middle of a name the path leads elsewhere, whatever follows. */
  lemma MiddleMisses(dir: Path, cm: Path, first: string, m: Move)
    requires OtherName(dir, cm) && cm != [] && first != ""
    requires ProperName(cm[|cm| - 1] + first)
    ensures Seen(dir, cm, Apply(m, Push(first, dir))) != Some(Apply(m, cm[..|cm| - 1] + [cm[|cm| - 1] + first]))
  {
    var init, stack := cm[..|cm| - 1], Push(first, dir);
    var there := init + [cm[|cm| - 1] + first];
    if Seen(dir, cm, Apply(m, stack)) == Some(Apply(m, there)) {
      if m.up == 0 {
        NoMoveMisses(dir, cm, first, m.down);
      } else {
        var k, j := Kept(stack, m.up), Kept(there, m.up);
        assert there[..j] == init[..j];
        assert k <= |dir| && stack[..k] == dir[..k];
        ComesBack(dir, k, m.down, cm, init[..j]);
        if k < |dir| {
          LastNames(cm, init[..j], dir[k..]);
        }
      }
    }
  }

  lemma NoMoveMisses(dir: Path, cm: Path, first: string, down: Path)
    requires dir != [] && cm != [] && first != ""
    ensures Seen(dir, cm, Apply(Move(0, down), Push(first, dir)))
            != Some(Apply(Move(0, down), cm[..|cm| - 1] + [cm[|cm| - 1] + first]))
  {
    var init, stack := cm[..|cm| - 1], Push(first, dir);
    var there := init + [cm[|cm| - 1] + first];
    assert Apply(Move(0, down), stack) == stack + down && Apply(Move(0, down), there) == there + down;
    assert |cm[|cm| - 1] + first| > |cm[|cm| - 1]|;
    assert (there + down)[|cm| - 1] != cm[|cm| - 1];
    if dir <= stack + down {
      assert (cm + (stack + down)[|dir|..])[|cm| - 1] == cm[|cm| - 1];
    }
  }

  /** For every path that a mount prefixes: the container sees the file where the path leads exactly when the path goes on
      at a boundary of the mount and its rest never leaves it. The mount is clean up to a trailing slash, and the
      temporary directory has a name of its own. */
  lemma ShownAtItsPath(mountMap: map<string, string>, mount: string, cm: Path, path: string)
    requires mount in mountMap && Matches(mount, path)
    requires Proper(cm) && (mount == Render(cm) || mount == Render(cm) + "/")
    requires OtherName(Resolve(mountMap[mount]), cm)
    ensures Resolve(mount) == cm
    ensures Seen(Resolve(mountMap[mount]), cm, LocalPath(mountMap, mount, path)) == Some(Resolve(path))
            <==> AtBoundary(mount, path[|mount|..]) && StaysBelow(path[|mount|..])
  {
    MountLeadsTo(mount, cm);
    LocalIsWalk(mountMap, mount, path);
    SeenExactly(Resolve(mountMap[mount]), mount, cm, path[|mount|..]);
  }

  lemma LocalIsWalk(mountMap: map<string, string>, mount: string, path: string)
    requires mount in mountMap && Matches(mount, path)
    ensures LocalPath(mountMap, mount, path) == Walk(Split(path[|mount|..]), Resolve(mountMap[mount]))
    ensures path == mount + path[|mount|..]
  {
    JoinWalks(mountMap[mount], path[|mount|..]);
  }

  lemma SeenExactly(dir: Path, mount: string, cm: Path, rest: string)
    requires Proper(cm) && (mount == Render(cm) || mount == Render(cm) + "/") && OtherName(dir, cm)
    ensures Seen(dir, cm, Walk(Split(rest), dir)) == Some(Resolve(mount + rest))
            <==> AtBoundary(mount, rest) && StaysBelow(rest)
  {
    if AtBoundary(mount, rest) {
      MountLeadsTo(mount, cm);
      BoundaryWalks(mount, rest);
      WalkNet(Split(rest), dir);
      WalkNet(Split(rest), cm);
      BoundaryMeets(dir, cm, Descent(rest));
    } else {
      assert mount == Render(cm);
      MiddleNotSeen(dir, cm, rest);
    }
  }

  lemma MiddleNotSeen(dir: Path, cm: Path, rest: string)
    requires Proper(cm) && OtherName(dir, cm) && !AtBoundary(Render(cm), rest)
    ensures Seen(dir, cm, Walk(Split(rest), dir)) != Some(Resolve(Render(cm) + rest))
  {
    var parts, there := Split(rest), cm[..|cm| - 1] + [cm[|cm| - 1] + Split(rest)[0]];
    MiddleWalks(cm, rest);
    FirstPart(rest);
    WalkNet(parts[1..], Push(parts[0], dir));
    WalkNet(parts[1..], there);
    MiddleMisses(dir, cm, parts[0], Net(parts[1..], STAY));
  }

  lemma MountLeadsTo(mount: string, cm: Path)
    requires Proper(cm) && (mount == Render(cm) || mount == Render(cm) + "/")
    ensures Resolve(mount) == cm
  {
    ResolveRender(cm);
    if mount == Render(cm) + "/" {
      BoundaryWalks(Render(cm), "/");
      SplitSlash("");
      assert "/" + "" == "/";
      WalkSlash([""], cm);
      assert Walk([""], cm) == cm by {
        assert [""][1..] == [];
      }
    }
  }

  /** Where two files go that stay below their mounts: in sibling directories they meet exactly when they have the same
      mount and the same cleaned rest. */
  lemma SamePlace(mountMap: map<string, string>, m: string, p: string, n: string, q: string)
    requires m in mountMap && Matches(m, p) && StaysBelow(p[|m|..])
    requires n in mountMap && Matches(n, q) && StaysBelow(q[|n|..])
    requires |Resolve(mountMap[m])| == |Resolve(mountMap[n])|
    requires m != n ==> Resolve(mountMap[m]) != Resolve(mountMap[n])
    ensures LocalPath(mountMap, m, p) == LocalPath(mountMap, n, q)
            <==> m == n && Descent(p[|m|..]).down == Descent(q[|n|..]).down
  {
    var d, e := Resolve(mountMap[m]), Resolve(mountMap[n]);
    var a, b := Descent(p[|m|..]).down, Descent(q[|n|..]).down;
    BelowPlace(mountMap, m, p);
    BelowPlace(mountMap, n, q);
    assert (d + a)[..|d|] == d && (e + b)[..|e|] == e && (d + a)[|d|..] == a && (e + b)[|e|..] == b;
  }

  lemma BelowPlace(mountMap: map<string, string>, m: string, p: string)
    requires m in mountMap && Matches(m, p) && StaysBelow(p[|m|..])
    ensures LocalPath(mountMap, m, p) == Resolve(mountMap[m]) + Descent(p[|m|..]).down
  {
    var dir := Resolve(mountMap[m]);
    JoinWalks(mountMap[m], p[|m|..]);
    WalkNet(Split(p[|m|..]), dir);
    assert dir[..|dir|] == dir;
  }

  /** The directory's own name is needed: a path that climbs out of the mount and comes back by that name is seen. */
  lemma SameNameComesBack(mountMap: map<string, string>)
    requires "/m" in mountMap && mountMap["/m"] == "/tmp/m"
    ensures Matches("/m", "/m/../m/x") && !StaysBelow("/m/../m/x"[2..])
    ensures Seen(["tmp", "m"], ["m"], LocalPath(mountMap, "/m", "/m/../m/x")) == Some(Resolve("/m/../m/x"))
  {
    var rest, path := "/../m/x", "/m/../m/x";
    assert path == "/m" + rest && path[2..] == rest;
    LeadsBack(mountMap, rest);
    ClimbsOut();
    var host: Path := ["tmp", "m", "x"];
    assert host[..2] == ["tmp", "m"] && ["m"] + host[2..] == ["m", "x"];
  }

  lemma ClimbsOut()
    ensures !StaysBelow("/../m/x")
  {
    RestParts();
    var parts := ["", "..", "m", "x"];
    assert parts[1..] == ["..", "m", "x"] && parts[1..][1..] == ["m", "x"];
    assert Net(parts, STAY) == Net(["..", "m", "x"], STAY) == Net(["m", "x"], Move(1, []));
    UpStays(["m", "x"], Move(1, []));
  }

  lemma {:induction false} UpStays(parts: seq<string>, m: Move)
    ensures Net(parts, m).up >= m.up
  {
    if parts != [] {
      UpStays(parts[1..], Then(m, parts[0]));
    }
  }

  lemma LeadsBack(mountMap: map<string, string>, rest: string)
    requires rest == "/../m/x" && "/m" in mountMap && mountMap["/m"] == "/tmp/m"
    ensures Resolve(Join(mountMap["/m"], rest)) == ["tmp", "m", "x"] && Resolve("/m" + rest) == ["m", "x"]
  {
    TwoNames();
    RestParts();
    JoinWalks("/tmp/m", rest);
    BoundaryWalks("/m", rest);
    WalkBack(["tmp"]);
    WalkBack([]);
    assert ["tmp"] + ["m"] == ["tmp", "m"] && [] + ["m"] == ["m"];
  }

  lemma TwoNames()
    ensures Resolve("/m") == ["m"] && Resolve("/tmp/m") == ["tmp", "m"]
  {
    assert ["m"][..0] == [] && ["tmp", "m"][..1] == ["tmp"] && ["tmp"][..0] == [];
    assert Render(["m"]) == "/m" && Render(["tmp", "m"]) == "/tmp/m";
    ResolveRender(["m"]);
    ResolveRender(["tmp", "m"]);
  }

  lemma RestParts()
    ensures Split("/../m/x") == ["", "..", "m", "x"]
  {
    SplitPlain("x");
    SplitAppend("m", "x");
    SplitPlain("m");
    SplitAppend("..", "m/x");
    SplitPlain("..");
    SplitSlash("../m/x");
    assert "m" + "/" + "x" == "m/x" && ".." + "/" + "m/x" == "../m/x" && "/" + "../m/x" == "/../m/x";
  }

  lemma WalkBack(above: Path)
    ensures Walk(["", "..", "m", "x"], above + ["m"]) == above + ["m", "x"]
  {
    var parts := ["..", "m", "x"];
    assert ["", "..", "m", "x"][1..] == parts && parts[1..] == ["m", "x"];
    assert Push("..", above + ["m"]) == above;
    WalkProper(["m", "x"], above);
  }
}
