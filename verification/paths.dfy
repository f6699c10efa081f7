/** Rooted slash-separated paths: filepath.Clean and filepath.Join as text, and the components a path resolves to. */
module Paths {

  /** The components of a resolved path, from the root. */
  type Path = seq<string>

  function Split(s: string): (parts: seq<string>)
    ensures |parts| > 0
  {
    if s == "" then [""] else Prepend(s[0], Split(s[1..]))
  }

  function Prepend(c: char, parts: seq<string>): (more: seq<string>)
    requires |parts| > 0
    ensures |more| > 0
  {
    if c == '/' then [""] + parts else [[c] + parts[0]] + parts[1..]
  }

  /** One step of the lexical walk of filepath.Clean from the root. */
  function Push(part: string, stack: Path): Path {
    if part == "" || part == "." then stack
    else if part == ".." then (if stack == [] then stack else stack[..|stack| - 1])
    else stack + [part]
  }

  function Walk(parts: seq<string>, stack: Path): Path {
    if parts == [] then stack else Walk(parts[1..], Push(parts[0], stack))
  }

  function Render(path: Path): string {
    if path == [] then "" else Render(path[..|path| - 1]) + "/" + path[|path| - 1]
  }

  /** The components that a rooted path leads to. */
  function Resolve(s: string): Path {
    Walk(Split(s), [])
  }

  /** filepath.Clean of a rooted path. */
  function Clean(s: string): string {
    if Resolve(s) == [] then "/" else Render(Resolve(s))
  }

  /** filepath.Join of a rooted directory and a possibly empty rest. */
  function Join(dir: string, rest: string): string {
    if rest == "" then Clean(dir) else Clean(dir + "/" + rest)
  }

  predicate ProperName(name: string) {
    '/' !in name && name != "" && name != "." && name != ".."
  }

  predicate Proper(path: Path) {
    forall i :: 0 <= i < |path| ==> ProperName(path[i])
  }

  predicate NoSlashes(parts: seq<string>) {
    forall i :: 0 <= i < |parts| ==> '/' !in parts[i]
  }

  // ---------- splitting ----------

  /** The part that the end of one text and the start of the next have in common. */
  function Joined(a: seq<string>, b: seq<string>): (parts: seq<string>)
    requires |a| > 0 && |b| > 0
    ensures |parts| == |a| + |b| - 1
  {
    a[..|a| - 1] + [a[|a| - 1] + b[0]] + b[1..]
  }

  lemma JoinedCons(x: string, a: seq<string>, b: seq<string>)
    requires |a| > 0 && |b| > 0
    ensures Joined([x] + a, b) == [x] + Joined(a, b)
  {
    var more := [x] + a;
    assert more[..|more| - 1] == [x] + a[..|a| - 1] && more[|more| - 1] == a[|a| - 1];
  }

  lemma PrependCons(c: char, x: string, a: seq<string>)
    requires c != '/'
    ensures Prepend(c, [x] + a) == [[c] + x] + a
  {
    assert ([x] + a)[1..] == a;
  }

  lemma PrependJoined(c: char, a: seq<string>, b: seq<string>)
    requires |a| > 0 && |b| > 0
    ensures Prepend(c, Joined(a, b)) == Joined(Prepend(c, a), b)
  {
    var first, rest := a[0], a[1..];
    assert a == [first] + rest;
    if c == '/' {
      JoinedCons("", a, b);
    } else if rest == [] {
      assert Joined(a, b) == [first + b[0]] + b[1..];
      PrependCons(c, first + b[0], b[1..]);
      assert [c] + (first + b[0]) == ([c] + first) + b[0];
      assert Joined([[c] + first], b) == [([c] + first) + b[0]] + b[1..];
    } else {
      JoinedCons(first, rest, b);
      PrependCons(c, first, Joined(rest, b));
      PrependCons(c, first, rest);
      JoinedCons([c] + first, rest, b);
    }
  }

  lemma {:induction false} SplitConcat(s: string, t: string)
    ensures Split(s + t) == Joined(Split(s), Split(t))
  {
    if s == "" {
      assert s + t == t;
      var parts := Split(t);
      assert "" + parts[0] == parts[0];
      assert Joined([""], parts) == [parts[0]] + parts[1..] == parts;
    } else {
      SplitConcat(s[1..], t);
      PrependJoined(s[0], Split(s[1..]), Split(t));
      assert (s + t)[0] == s[0] && (s + t)[1..] == s[1..] + t;
    }
  }

  lemma SplitSlash(t: string)
    ensures Split("/" + t) == [""] + Split(t)
  {
    assert ("/" + t)[0] == '/' && ("/" + t)[1..] == t;
  }

  /** A slash at the joint keeps the parts apart. */
  lemma JoinedApart(a: seq<string>, b: seq<string>)
    requires |a| > 0
    ensures Joined(a, [""] + b) == a + b
  {
    assert ([""] + b)[1..] == b;
    assert a[|a| - 1] + "" == a[|a| - 1];
    assert a == a[..|a| - 1] + [a[|a| - 1]];
  }

  lemma SplitAppend(s: string, t: string)
    ensures Split(s + "/" + t) == Split(s) + Split(t)
  {
    SplitSlash(t);
    SplitConcat(s, "/" + t);
    JoinedApart(Split(s), Split(t));
    assert s + "/" + t == s + ("/" + t);
  }

  lemma {:induction false} SplitPlain(s: string)
    requires '/' !in s
    ensures Split(s) == [s]
  {
    if s != "" {
      SplitPlain(s[1..]);
      assert s == [s[0]] + s[1..];
    }
  }

  lemma {:induction false} SplitHasNoSlashes(s: string)
    ensures NoSlashes(Split(s))
  {
    if s != "" {
      SplitHasNoSlashes(s[1..]);
    }
  }

  lemma {:induction false} SplitRender(path: Path)
    requires Proper(path)
    ensures Split(Render(path)) == [""] + path
  {
    if path != [] {
      var last := |path| - 1;
      assert ProperName(path[last]);
      SplitRender(path[..last]);
      SplitPlain(path[last]);
      SplitAppend(Render(path[..last]), path[last]);
      assert path == path[..last] + [path[last]];
    }
  }

  lemma RenderName(dir: Path, name: string)
    ensures Render(dir + [name]) == Render(dir) + "/" + name
  {
    assert (dir + [name])[..|dir|] == dir;
  }

  // ---------- walking ----------

  lemma {:induction false} WalkAppend(a: seq<string>, b: seq<string>, stack: Path)
    ensures Walk(a + b, stack) == Walk(b, Walk(a, stack))
  {
    if a == [] {
      assert a + b == b;
    } else {
      WalkAppend(a[1..], b, Push(a[0], stack));
      assert (a + b)[0] == a[0] && (a + b)[1..] == a[1..] + b;
    }
  }

  lemma {:induction false} WalkProper(path: Path, stack: Path)
    requires Proper(path)
    ensures Walk(path, stack) == stack + path
  {
    if path != [] {
      assert ProperName(path[0]);
      WalkProper(path[1..], stack + [path[0]]);
      assert stack + path == stack + [path[0]] + path[1..];
    }
  }

  lemma {:induction false} WalkStaysProper(parts: seq<string>, stack: Path)
    requires NoSlashes(parts) && Proper(stack)
    ensures Proper(Walk(parts, stack))
  {
    if parts != [] {
      assert '/' !in parts[0];
      WalkStaysProper(parts[1..], Push(parts[0], stack));
    }
  }

  lemma WalkSlash(parts: seq<string>, stack: Path)
    ensures Walk([""] + parts, stack) == Walk(parts, stack)
  {
    assert ([""] + parts)[1..] == parts;
  }

  lemma ResolveProper(s: string)
    ensures Proper(Resolve(s))
  {
    SplitHasNoSlashes(s);
    WalkStaysProper(Split(s), []);
  }

  /** Resolving the text of a resolved path changes nothing. */
  lemma ResolveRender(path: Path)
    requires Proper(path)
    ensures Resolve(Render(path)) == path
  {
    SplitRender(path);
    WalkSlash(path, []);
    WalkProper(path, []);
    assert [] + path == path;
  }

  lemma {:induction false} RenderPrefix(a: Path, b: Path)
    requires a <= b
    ensures Render(a) <= Render(b)
  {
    if |a| < |b| {
      RenderPrefix(a, b[..|b| - 1]);
    } else {
      assert a == b;
    }
  }

  /** filepath.Clean keeps where a path leads, and cleaning again changes nothing. */
  lemma CleanKeeps(s: string)
    ensures Resolve(Clean(s)) == Resolve(s) && Clean(Clean(s)) == Clean(s)
  {
    ResolveProper(s);
    if Resolve(s) == [] {
      SplitSlash("");
      assert "/" + "" == "/";
      assert Resolve("/") == [] by {
        WalkSlash([""], []);
      }
    } else {
      ResolveRender(Resolve(s));
    }
  }

  /** Where filepath.Join leads: the walk goes on from the directory. */
  lemma JoinWalks(dir: string, rest: string)
    ensures Resolve(Join(dir, rest)) == Walk(Split(rest), Resolve(dir))
  {
    if rest == "" {
      CleanKeeps(dir);
    } else {
      CleanKeeps(dir + "/" + rest);
      SplitAppend(dir, rest);
      WalkAppend(Split(dir), Split(rest), []);
    }
  }

  // ---------- the net effect of a walk ----------

  /** Leave up directories, then enter down. */
  datatype Move = Move(up: nat, down: Path)

  const STAY: Move := Move(0, [])

  function Then(m: Move, part: string): Move {
    if part == "" || part == "." then m
    else if part != ".." then Move(m.up, m.down + [part])
    else if m.down == [] then Move(m.up + 1, [])
    else Move(m.up, m.down[..|m.down| - 1])
  }

  function Net(parts: seq<string>, m: Move): Move {
    if parts == [] then m else Net(parts[1..], Then(m, parts[0]))
  }

  /** What is left of a stack after leaving directories; the root is never left. */
  function Kept(stack: Path, up: nat): (k: nat)
    ensures k <= |stack|
  {
    if up <= |stack| then |stack| - up else 0
  }

  function Apply(m: Move, stack: Path): Path {
    stack[..Kept(stack, m.up)] + m.down
  }

  lemma PushIsThen(m: Move, part: string, stack: Path)
    ensures Push(part, Apply(m, stack)) == Apply(Then(m, part), stack)
  {
    var at := Apply(m, stack);
    if part == "" || part == "." {
    } else if part != ".." {
      assert at + [part] == stack[..Kept(stack, m.up)] + (m.down + [part]);
    } else if m.down == [] {
      assert at == stack[..Kept(stack, m.up)];
      assert Apply(Then(m, part), stack) == stack[..Kept(stack, m.up + 1)];
    } else {
      assert at[..|at| - 1] == stack[..Kept(stack, m.up)] + m.down[..|m.down| - 1];
    }
  }

  lemma {:induction false} WalkIsNet(parts: seq<string>, m: Move, stack: Path)
    ensures Walk(parts, Apply(m, stack)) == Apply(Net(parts, m), stack)
  {
    if parts != [] {
      PushIsThen(m, parts[0], stack);
      WalkIsNet(parts[1..], Then(m, parts[0]), stack);
    }
  }

  lemma WalkNet(parts: seq<string>, stack: Path)
    ensures Walk(parts, stack) == Apply(Net(parts, STAY), stack)
  {
    assert Apply(STAY, stack) == stack;
    WalkIsNet(parts, STAY, stack);
  }

  /** Where the rest of a path leads, seen from where the rest starts. */
  function Descent(rest: string): Move {
    Net(Split(rest), STAY)
  }

  /** The rest never leaves the directory it starts in, not even to come back. */
  predicate StaysBelow(rest: string) {
    Descent(rest).up == 0
  }

  // ---------- clean paths ----------

  /** A rooted path other than the root in the form filepath.Clean gives it. */
  predicate CleanPath(s: string) {
    Resolve(s) != [] && s == Render(Resolve(s))
  }

  lemma RenderedIsClean(path: Path)
    requires Proper(path) && path != []
    ensures CleanPath(Render(path)) && Resolve(Render(path)) == path
  {
    ResolveRender(path);
  }

  lemma SplitClean(s: string)
    requires CleanPath(s)
    ensures Split(s) == [""] + Resolve(s) && Proper(Resolve(s))
  {
    ResolveProper(s);
    SplitRender(Resolve(s));
  }

  lemma CutCommon(a: seq<string>, b: seq<string>, c: seq<string>)
    requires [""] + c == [""] + a + b
    ensures c == a + b && b == c[|a|..]
  {
    assert c == ([""] + c)[1..] == ([""] + a + b)[1..] == a + b;
  }

  /** The components of a clean path below a clean directory. */
  lemma CleanSplits(mount: string, tail: string)
    requires CleanPath(mount) && CleanPath(mount + "/" + tail)
    ensures Resolve(mount + "/" + tail) == Resolve(mount) + Split(tail) && Proper(Split(tail))
  {
    var path := mount + "/" + tail;
    SplitClean(mount);
    SplitClean(path);
    SplitAppend(mount, tail);
    CutCommon(Resolve(mount), Split(tail), Resolve(path));
  }

  /** A clean path that continues a clean directory with a slash resolves below it, by the components after it. */
  lemma CleanBelow(mount: string, path: string)
    requires CleanPath(mount) && CleanPath(path) && mount + "/" <= path
    ensures Resolve(mount) < Resolve(path)
    ensures forall dir :: Walk(Split(path[|mount|..]), dir) == dir + Resolve(path)[|Resolve(mount)|..]
  {
    var tail := path[|mount| + 1..];
    assert path == mount + "/" + tail && path[|mount|..] == "/" + tail;
    CleanSplits(mount, tail);
    SplitSlash(tail);
    forall dir
      ensures Walk(Split(path[|mount|..]), dir) == dir + Split(tail)
    {
      WalkSlash(Split(tail), dir);
      WalkProper(Split(tail), dir);
    }
  }
}
