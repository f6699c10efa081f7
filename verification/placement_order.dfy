/** When the outcome of the file placement depends on the orders in which Go happens to iterate over its two maps. */
module PlacementOrder {
  import opened Paths
  import opened ContainerSpec
  import opened DockerFiles

  /** Where each file may end up: a place for every matching mount. */
  type Candidates = map<string, set<Path>>

  function CandidatesOf(mountMap: map<string, string>, paths: set<string>): (can: Candidates)
    ensures can.Keys == paths
  {
    map p | p in paths :: set m | m in mountMap && Matches(m, p) :: LocalPath(mountMap, m, p)
  }

  /** Each file goes to one of its candidates. */
  ghost predicate IsPlace(can: Candidates, place: map<string, Path>) {
    place.Keys == can.Keys && forall p :: p in can ==> place[p] in can[p]
  }

  /** What the host may hold of the files when they are all written: every choice of mounts, every order of the files. */
  ghost predicate Outcome(can: Candidates, files: map<string, Content>, disk: map<Path, Content>)
    requires can.Keys == files.Keys
  {
    exists place, order :: IsPlace(can, place) && IsOrder(order, files.Keys) && disk == DiskAfter(place, files, order)
  }

  ghost predicate OneOutcome(can: Candidates, files: map<string, Content>)
    requires can.Keys == files.Keys
  {
    forall a, b :: Outcome(can, files, a) && Outcome(can, files, b) ==> a == b
  }

  // ---------- the mount choice ----------

  /** The mount choice does not depend on the order of the mounts exactly when no path has two matching mounts. */
  lemma ChoiceOrderFree(mounts: set<string>, paths: set<string>, chosen: map<string, string>)
    requires IsPlacement(mounts, paths, chosen)
    ensures (forall other :: IsPlacement(mounts, paths, other) ==> other == chosen)
            <==> forall p, m, n :: p in paths && m in mounts && n in mounts && Matches(m, p) && Matches(n, p) ==> m == n
  {
    if forall other :: IsPlacement(mounts, paths, other) ==> other == chosen {
      forall p, m, n | p in paths && m in mounts && n in mounts && Matches(m, p) && Matches(n, p)
        ensures m == n
      {
        var a, b := chosen[p := m], chosen[p := n];
        assert IsPlacement(mounts, paths, a) && IsPlacement(mounts, paths, b);
        assert a[p] == b[p];
      }
    }
    if forall p, m, n :: p in paths && m in mounts && n in mounts && Matches(m, p) && Matches(n, p) ==> m == n {
      forall other | IsPlacement(mounts, paths, other)
        ensures other == chosen
      {
        assert forall p :: p in paths ==> other[p] == chosen[p];
      }
    }
  }

  /** Mounts none of which is a prefix of another never compete for a path. */
  lemma DisjointMountsNeverCompete(mounts: set<string>, path: string, m: string, n: string)
    requires forall a, b :: a in mounts && b in mounts && Matches(a, b) ==> a == b
    requires m in mounts && n in mounts && Matches(m, path) && Matches(n, path)
    ensures m == n
  {
    assert m == path[..|m|] && n == path[..|n|];
    if |m| <= |n| {
      assert n[..|m|] == m;
    } else {
      assert m[..|n|] == n;
    }
  }

  /** With nested mounts the two iteration orders really differ. */
  lemma NestedMountsCompete()
    ensures var mounts := {"/data", "/data/keys"};
            var paths := {"/data/keys/a"};
            && IsPlacement(mounts, paths, map["/data/keys/a" := "/data"])
            && IsPlacement(mounts, paths, map["/data/keys/a" := "/data/keys"])
            && map["/data/keys/a" := "/data"]["/data/keys/a"] != map["/data/keys/a" := "/data/keys"]["/data/keys/a"]
  {
    var path, m, n := "/data/keys/a", "/data", "/data/keys";
    assert path[..5] == m && path[..10] == n;
  }

  // ---------- the outcome ----------

  /** Every file has a mount. */
  ghost predicate AllPlaceable(can: Candidates) {
    forall p :: p in can ==> can[p] != {}
  }

  /** Files that may end up in the same place have the same content. */
  ghost predicate SameContent(can: Candidates, files: map<string, Content>)
    requires can.Keys == files.Keys
  {
    forall p, q {:trigger Meet(can, p, q)} :: Meet(can, p, q) ==> files[p] == files[q]
  }

  ghost predicate Meet(can: Candidates, p: string, q: string) {
    p in can && q in can && exists l :: l in can[p] && l in can[q]
  }

  /** This file goes to l whatever its mount. */
  ghost predicate OnlyTo(can: Candidates, q: string, l: Path) {
    q in can && can[q] <= {l}
  }

  ghost predicate Certain(can: Candidates, l: Path) {
    exists q :: OnlyTo(can, q, l)
  }

  /** Every place where a file may end up gets a file in any case. */
  ghost predicate PlacesCertain(can: Candidates) {
    forall p, l {:trigger Certain(can, l), l in can[p]} :: p in can && l in can[p] ==> Certain(can, l)
  }

  lemma {:induction false} SomeOrder(paths: set<string>) returns (order: seq<string>)
    ensures IsOrder(order, paths)
    decreases paths
  {
    if paths == {} {
      return [];
    }
    var p :| p in paths;
    order := SomeOrder(paths - {p});
    OrderGrows(order, paths - {p}, p);
    assert paths - {p} + {p} == paths;
    order := order + [p];
  }

  lemma OrderEndingIn(paths: set<string>, p: string) returns (order: seq<string>)
    requires p in paths
    ensures IsOrder(order, paths) && order != [] && order[|order| - 1] == p
  {
    order := SomeOrder(paths - {p});
    OrderGrows(order, paths - {p}, p);
    assert paths - {p} + {p} == paths;
    order := order + [p];
  }

  /** A place for each file that avoids l where the file can. */
  lemma {:induction false} AvoidingPlace(can: Candidates, l: Path) returns (place: map<string, Path>)
    requires AllPlaceable(can)
    ensures IsPlace(can, place)
    ensures forall p :: p in can && place[p] == l ==> OnlyTo(can, p, l)
    decreases |can|
  {
    if can == map[] {
      return map[];
    }
    var p :| p in can;
    place := AvoidingPlace(can - {p}, l);
    var to :| to in can[p];
    if !OnlyTo(can, p, l) {
      to :| to in can[p] && to != l;
    }
    forall q | q in can && q != p
      ensures q in place && place[q] in can[q] && (place[q] == l ==> OnlyTo(can, q, l))
    {
      assert q in can - {p};
    }
    assert can.Keys == (can - {p}).Keys + {p};
    place := place[p := to];
  }

  lemma LastStays(place: map<string, Path>, files: map<string, Content>, order: seq<string>, p: string)
    requires IsOrder(order, files.Keys) && place.Keys == files.Keys && order != [] && order[|order| - 1] == p
    ensures place[p] in DiskAfter(place, files, order) && DiskAfter(place, files, order)[place[p]] == files[p]
  {
  }

  lemma OneNeedsSameContent(can: Candidates, files: map<string, Content>, p: string, q: string, l: Path)
    requires can.Keys == files.Keys && OneOutcome(can, files) && AllPlaceable(can)
    requires p in files && q in files && l in can[p] && l in can[q]
    ensures files[p] == files[q]
  {
    var place := AvoidingPlace(can, l);
    place := place[p := l][q := l];
    assert IsPlace(can, place);
    var a := OrderEndingIn(files.Keys, p);
    var b := OrderEndingIn(files.Keys, q);
    LastStays(place, files, a, p);
    LastStays(place, files, b, q);
    assert Outcome(can, files, DiskAfter(place, files, a)) && Outcome(can, files, DiskAfter(place, files, b));
  }

  lemma OneNeedsCertainty(can: Candidates, files: map<string, Content>, p: string, l: Path)
    requires can.Keys == files.Keys && OneOutcome(can, files) && AllPlaceable(can)
    requires p in files && l in can[p]
    ensures Certain(can, l)
  {
    var place := AvoidingPlace(can, l);
    var to := place[p := l];
    var order := SomeOrder(files.Keys);
    assert IsPlace(can, to);
    assert Outcome(can, files, DiskAfter(place, files, order)) && Outcome(can, files, DiskAfter(to, files, order));
    DiskHolds(to, files, order, l);
    assert Stored(to, order, l, p);
    DiskHolds(place, files, order, l);
    var q :| Stored(place, order, l, q);
    assert OnlyTo(can, q, l);
  }

  ghost predicate MayHold(can: Candidates, l: Path) {
    exists p :: p in can && l in can[p]
  }

  lemma HeldMayBe(can: Candidates, files: map<string, Content>, disk: map<Path, Content>, l: Path)
    requires can.Keys == files.Keys && Outcome(can, files, disk) && SameContent(can, files) && l in disk
    ensures MayHold(can, l) && forall p :: p in can && l in can[p] ==> disk[l] == files[p]
  {
    var place, order :| IsPlace(can, place) && IsOrder(order, files.Keys) && disk == DiskAfter(place, files, order);
    DiskHolds(place, files, order, l);
    var p :| Stored(place, order, l, p) && disk[l] == files[p];
    assert p in can && l in can[p];
    forall q | q in can && l in can[q]
      ensures disk[l] == files[q]
    {
      assert Meet(can, p, q);
    }
  }

  lemma OnlyPlaceIsHeld(can: Candidates, files: map<string, Content>, place: map<string, Path>, order: seq<string>,
                        q: string, l: Path)
    requires IsPlace(can, place) && can.Keys == files.Keys && IsOrder(order, files.Keys) && OnlyTo(can, q, l)
    ensures l in DiskAfter(place, files, order)
  {
    assert place[q] == l;
    DiskHolds(place, files, order, l);
    assert Stored(place, order, l, q);
  }

  lemma CertainIsHeld(can: Candidates, files: map<string, Content>, disk: map<Path, Content>, l: Path)
    requires can.Keys == files.Keys && Outcome(can, files, disk) && Certain(can, l)
    ensures l in disk
  {
    var place, order :| IsPlace(can, place) && IsOrder(order, files.Keys) && disk == DiskAfter(place, files, order);
    var q :| OnlyTo(can, q, l);
    OnlyPlaceIsHeld(can, files, place, order, q, l);
  }

  lemma SufficesForOne(can: Candidates, files: map<string, Content>)
    requires can.Keys == files.Keys && SameContent(can, files) && PlacesCertain(can)
    ensures OneOutcome(can, files)
  {
    forall a, b | Outcome(can, files, a) && Outcome(can, files, b)
      ensures a == b
    {
      OutcomeIncluded(can, files, a, b);
      OutcomeIncluded(can, files, b, a);
      IncludedBothWays(a, b);
    }
  }

  ghost predicate Included(a: map<Path, Content>, b: map<Path, Content>) {
    forall l :: l in a ==> l in b && a[l] == b[l]
  }

  lemma IncludedBothWays(a: map<Path, Content>, b: map<Path, Content>)
    requires Included(a, b) && Included(b, a)
    ensures a == b
  {
  }

  lemma OutcomeIncluded(can: Candidates, files: map<string, Content>, a: map<Path, Content>, b: map<Path, Content>)
    requires can.Keys == files.Keys && SameContent(can, files) && PlacesCertain(can)
    requires Outcome(can, files, a) && Outcome(can, files, b)
    ensures Included(a, b)
  {
    forall l | l in a
      ensures l in b && a[l] == b[l]
    {
      AgreeAt(can, files, a, b, l);
    }
  }

  lemma AgreeAt(can: Candidates, files: map<string, Content>, a: map<Path, Content>, b: map<Path, Content>, l: Path)
    requires can.Keys == files.Keys && SameContent(can, files) && PlacesCertain(can)
    requires Outcome(can, files, a) && Outcome(can, files, b)
    ensures l in a ==> l in b && a[l] == b[l]
  {
    if l in a {
      HeldMayBe(can, files, a, l);
      var p :| p in can && l in can[p];
      assert Certain(can, l);
      CertainIsHeld(can, files, b, l);
      HeldMayBe(can, files, b, l);
    }
  }

  lemma NeededForOne(can: Candidates, files: map<string, Content>)
    requires can.Keys == files.Keys && OneOutcome(can, files) && AllPlaceable(can)
    ensures SameContent(can, files) && PlacesCertain(can)
  {
    forall p, q | Meet(can, p, q)
      ensures files[p] == files[q]
    {
      var l :| l in can[p] && l in can[q];
      OneNeedsSameContent(can, files, p, q, l);
    }
    forall p, l | p in can && l in can[p]
      ensures Certain(can, l)
    {
      OneNeedsCertainty(can, files, p, l);
    }
  }

  /** The host ends up with the same files for every order of the mounts and of the files exactly when files that may end
      up in the same place have the same content and every place where a file may end up gets one in any case. */
  lemma OutcomeOrderFree(can: Candidates, files: map<string, Content>)
    requires can.Keys == files.Keys
    ensures OneOutcome(can, files) <==> (AllPlaceable(can) ==> SameContent(can, files) && PlacesCertain(can))
  {
    if OneOutcome(can, files) && AllPlaceable(can) {
      NeededForOne(can, files);
    } else if SameContent(can, files) && PlacesCertain(can) {
      SufficesForOne(can, files);
    }
  }

  ghost predicate PrefixFree(mounts: set<string>) {
    forall a, b :: a in mounts && b in mounts && Matches(a, b) ==> a == b
  }

  lemma PrefixFreeIsCertain(mountMap: map<string, string>, paths: set<string>)
    requires PrefixFree(mountMap.Keys)
    ensures PlacesCertain(CandidatesOf(mountMap, paths))
  {
    var can := CandidatesOf(mountMap, paths);
    forall p, l | p in can && l in can[p]
      ensures Certain(can, l)
    {
      forall other | other in can[p]
        ensures other == l
      {
        var m :| m in mountMap && Matches(m, p) && LocalPath(mountMap, m, p) == l;
        var n :| n in mountMap && Matches(n, p) && LocalPath(mountMap, n, p) == other;
        DisjointMountsNeverCompete(mountMap.Keys, p, m, n);
      }
      assert OnlyTo(can, p, l);
    }
  }

  /** With mounts that are no prefix of each other, only files of different content with the same place matter. */
  lemma PrefixFreeOutcome(mountMap: map<string, string>, files: map<string, Content>)
    requires PrefixFree(mountMap.Keys)
    ensures var can := CandidatesOf(mountMap, files.Keys);
            OneOutcome(can, files) <==> (AllPlaceable(can) ==> SameContent(can, files))
  {
    PrefixFreeIsCertain(mountMap, files.Keys);
    OutcomeOrderFree(CandidatesOf(mountMap, files.Keys), files);
  }

  // ---------- the outer loop ----------

  lemma ChosenIsPlace(mountMap: map<string, string>, paths: set<string>, chosen: map<string, string>)
    requires IsPlacement(mountMap.Keys, chosen.Keys, chosen) && chosen.Keys <= paths
    ensures forall p :: p in chosen ==> Places(mountMap, chosen)[p] in CandidatesOf(mountMap, paths)[p]
  {
  }

  /** A successful loop leaves one of the outcomes on top of what the host had. */
  lemma AttemptIsOutcome(t: Tree, mountMap: map<string, string>, files: map<string, Content>, writes: string -> bool,
                         chosen: map<string, string>, after: Tree)
    requires Attempt(t, mountMap, files, writes, true, chosen, after)
    ensures exists disk :: Outcome(CandidatesOf(mountMap, files.Keys), files, disk) && after.files == t.files + disk
  {
    var place := Places(mountMap, chosen);
    ChosenIsPlace(mountMap, files.Keys, chosen);
    var order :| IsOrder(order, place.Keys)
                 && after == Tree(t.dirs + Ancestors(place.Values), t.files + DiskAfter(place, files, order));
    assert IsPlace(CandidatesOf(mountMap, files.Keys), place);
    assert Outcome(CandidatesOf(mountMap, files.Keys), files, DiskAfter(place, files, order));
  }

  ghost predicate Reaches(mountMap: map<string, string>, p: string, l: Path) {
    exists m :: m in mountMap && Matches(m, p) && LocalPath(mountMap, m, p) == l
  }

  ghost function MountFor(mountMap: map<string, string>, p: string, l: Path): (m: string)
    requires Reaches(mountMap, p, l)
    ensures m in mountMap && Matches(m, p) && LocalPath(mountMap, m, p) == l
  {
    var m :| m in mountMap && Matches(m, p) && LocalPath(mountMap, m, p) == l;
    m
  }

  lemma CandidateReaches(mountMap: map<string, string>, paths: set<string>, p: string, l: Path)
    requires p in paths && l in CandidatesOf(mountMap, paths)[p]
    ensures Reaches(mountMap, p, l)
  {
  }

  /** Some choice of mounts gives these places. */
  lemma SomeChoice(mountMap: map<string, string>, place: map<string, Path>) returns (chosen: map<string, string>)
    requires forall p :: p in place ==> Reaches(mountMap, p, place[p])
    ensures IsPlacement(mountMap.Keys, place.Keys, chosen) && Places(mountMap, chosen) == place
  {
    chosen := map p | p in place :: MountFor(mountMap, p, place[p]);
    assert chosen.Keys == place.Keys;
    assert forall p :: p in place ==> chosen[p] == MountFor(mountMap, p, place[p]);
    SamePlaces(mountMap, chosen, place);
  }

  lemma SamePlaces(mountMap: map<string, string>, chosen: map<string, string>, place: map<string, Path>)
    requires chosen.Keys == place.Keys && IsPlacement(mountMap.Keys, place.Keys, chosen)
    requires forall p :: p in place ==> LocalPath(mountMap, chosen[p], p) == place[p]
    ensures Places(mountMap, chosen) == place
  {
    var places := Places(mountMap, chosen);
    assert places.Keys == place.Keys;
    assert forall p :: p in place ==> places[p] == place[p];
  }

  lemma PlaceReaches(mountMap: map<string, string>, paths: set<string>, place: map<string, Path>)
    requires IsPlace(CandidatesOf(mountMap, paths), place)
    ensures forall p :: p in place ==> Reaches(mountMap, p, place[p])
  {
    forall p | p in place
      ensures Reaches(mountMap, p, place[p])
    {
      CandidateReaches(mountMap, paths, p, place[p]);
    }
  }

  /** What the host has after all files went to these places in this order. */
  function Left(t: Tree, place: map<string, Path>, files: map<string, Content>, order: seq<string>): Tree
    requires place.Keys == files.Keys && forall p :: p in order ==> p in files
  {
    Tree(t.dirs + Ancestors(place.Values), t.files + DiskAfter(place, files, order))
  }

  /** Every outcome whose places fit is left by the loop, when no writing fails by itself. */
  lemma OutcomeIsLeft(t: Tree, mountMap: map<string, string>, files: map<string, Content>, writes: string -> bool,
                      place: map<string, Path>, order: seq<string>) returns (chosen: map<string, string>)
    requires IsPlace(CandidatesOf(mountMap, files.Keys), place) && IsOrder(order, files.Keys)
    requires Fits(t, place.Values) && forall p :: p in files ==> writes(p)
    ensures Attempt(t, mountMap, files, writes, true, chosen, Left(t, place, files, order))
  {
    PlaceReaches(mountMap, files.Keys, place);
    chosen := SomeChoice(mountMap, place);
  }

  /** And one whose places do not fit makes it fail. */
  lemma MisfitFails(t: Tree, mountMap: map<string, string>, files: map<string, Content>, writes: string -> bool,
                    place: map<string, Path>, after: Tree) returns (chosen: map<string, string>)
    requires IsPlace(CandidatesOf(mountMap, files.Keys), place) && !Fits(t, place.Values)
    ensures Attempt(t, mountMap, files, writes, false, chosen, after)
  {
    PlaceReaches(mountMap, files.Keys, place);
    chosen := SomeChoice(mountMap, place);
    FailedAttempt(t, mountMap, files, writes, chosen, after);
  }

  function AllPlaces(can: Candidates): set<Path> {
    set p, l | p in can && l in can[p] :: l
  }

  lemma FitsFewer(t: Tree, few: set<Path>, locals: set<Path>)
    requires few <= locals && Fits(t, locals)
    ensures Fits(t, few)
  {
  }

  lemma CertainValues(can: Candidates, place: map<string, Path>)
    requires PlacesCertain(can) && place.Keys <= can.Keys && forall p :: p in place ==> place[p] in can[p]
    ensures place.Values <= AllPlaces(can)
    ensures place.Keys == can.Keys ==> place.Values == AllPlaces(can)
  {
    forall p | p in place
      ensures place[p] in AllPlaces(can)
    {
      assert p in can && place[p] in can[p];
    }
    if place.Keys == can.Keys {
      forall l | l in AllPlaces(can)
        ensures l in place.Values
      {
        var p :| p in can && l in can[p];
        assert Certain(can, l);
        var q :| OnlyTo(can, q, l);
        assert q in place && place[q] == l;
      }
    }
  }

  lemma CertainPlaces(mountMap: map<string, string>, paths: set<string>, chosen: map<string, string>)
    requires PlacesCertain(CandidatesOf(mountMap, paths))
    requires IsPlacement(mountMap.Keys, chosen.Keys, chosen) && chosen.Keys <= paths
    ensures Places(mountMap, chosen).Values <= AllPlaces(CandidatesOf(mountMap, paths))
    ensures chosen.Keys == paths ==> Places(mountMap, chosen).Values == AllPlaces(CandidatesOf(mountMap, paths))
  {
    ChosenIsPlace(mountMap, paths, chosen);
    CertainValues(CandidatesOf(mountMap, paths), Places(mountMap, chosen));
  }

  /** When every possible place gets a file in any case, success does not depend on the orders: every file has a mount,
      every writing goes through, and nothing is in the way of the files' places. */
  lemma CertainSuccess(t: Tree, mountMap: map<string, string>, files: map<string, Content>, writes: string -> bool,
                       ok: bool, chosen: map<string, string>, after: Tree)
    requires PlacesCertain(CandidatesOf(mountMap, files.Keys)) && Attempt(t, mountMap, files, writes, ok, chosen, after)
    ensures ok <==> && AllPlaceable(CandidatesOf(mountMap, files.Keys)) && (forall p :: p in files ==> writes(p))
                    && Fits(t, AllPlaces(CandidatesOf(mountMap, files.Keys)))
  {
    var can := CandidatesOf(mountMap, files.Keys);
    CertainPlaces(mountMap, files.Keys, chosen);
    ChosenIsPlace(mountMap, files.Keys, chosen);
    if !ok && Fits(t, AllPlaces(can)) {
      FitsFewer(t, Places(mountMap, chosen).Values, AllPlaces(can));
      if HasStray(mountMap, files.Keys) {
        var p :| p in files && forall m :: m in mountMap ==> !Matches(m, p);
        assert can[p] == {};
      }
    }
    if ok {
      assert forall p :: p in can ==> can[p] != {};
    }
  }

  /** With mounts that are no prefix of each other that is so. */
  lemma PrefixFreeSuccess(t: Tree, mountMap: map<string, string>, files: map<string, Content>, writes: string -> bool,
                          ok: bool, chosen: map<string, string>, after: Tree)
    requires PrefixFree(mountMap.Keys) && Attempt(t, mountMap, files, writes, ok, chosen, after)
    ensures ok <==> && AllPlaceable(CandidatesOf(mountMap, files.Keys)) && (forall p :: p in files ==> writes(p))
                    && Fits(t, AllPlaces(CandidatesOf(mountMap, files.Keys)))
  {
    PrefixFreeIsCertain(mountMap, files.Keys);
    CertainSuccess(t, mountMap, files, writes, ok, chosen, after);
  }

  // ---------- the result of the loop ----------

  /** The result of the loop does not depend on the orders of the mounts and of the files. */
  ghost predicate OneResult(t: Tree, mountMap: map<string, string>, files: map<string, Content>, writes: string -> bool) {
    forall ok1, chosen1, after1, ok2, chosen2, after2 ::
      Attempt(t, mountMap, files, writes, ok1, chosen1, after1) && Attempt(t, mountMap, files, writes, ok2, chosen2, after2)
      ==> ok1 == ok2 && (ok1 ==> after1 == after2)
  }

  lemma SameLeft(t: Tree, mountMap: map<string, string>, files: map<string, Content>, writes: string -> bool,
                 chosen1: map<string, string>, after1: Tree, chosen2: map<string, string>, after2: Tree)
    requires OneOutcome(CandidatesOf(mountMap, files.Keys), files) && PlacesCertain(CandidatesOf(mountMap, files.Keys))
    requires Attempt(t, mountMap, files, writes, true, chosen1, after1)
    requires Attempt(t, mountMap, files, writes, true, chosen2, after2)
    ensures after1 == after2
  {
    AttemptLeaves(t, mountMap, files, writes, chosen1, after1);
    AttemptLeaves(t, mountMap, files, writes, chosen2, after2);
  }

  lemma AttemptLeaves(t: Tree, mountMap: map<string, string>, files: map<string, Content>, writes: string -> bool,
                      chosen: map<string, string>, after: Tree)
    requires PlacesCertain(CandidatesOf(mountMap, files.Keys))
    requires Attempt(t, mountMap, files, writes, true, chosen, after)
    ensures after.dirs == t.dirs + Ancestors(AllPlaces(CandidatesOf(mountMap, files.Keys)))
    ensures exists disk :: Outcome(CandidatesOf(mountMap, files.Keys), files, disk) && after.files == t.files + disk
  {
    CertainPlaces(mountMap, files.Keys, chosen);
    AttemptIsOutcome(t, mountMap, files, writes, chosen, after);
  }

  lemma OutcomeGivesResult(t: Tree, mountMap: map<string, string>, files: map<string, Content>, writes: string -> bool)
    requires OneOutcome(CandidatesOf(mountMap, files.Keys), files) && AllPlaceable(CandidatesOf(mountMap, files.Keys))
    ensures OneResult(t, mountMap, files, writes)
  {
    NeededForOne(CandidatesOf(mountMap, files.Keys), files);
    forall ok1, chosen1, after1, ok2, chosen2, after2 |
      Attempt(t, mountMap, files, writes, ok1, chosen1, after1) && Attempt(t, mountMap, files, writes, ok2, chosen2, after2)
      ensures ok1 == ok2 && (ok1 ==> after1 == after2)
    {
      CertainSuccess(t, mountMap, files, writes, ok1, chosen1, after1);
      CertainSuccess(t, mountMap, files, writes, ok2, chosen2, after2);
      if ok1 {
        SameLeft(t, mountMap, files, writes, chosen1, after1, chosen2, after2);
      }
    }
  }

  lemma ResultGivesOutcome(t: Tree, mountMap: map<string, string>, files: map<string, Content>, writes: string -> bool,
                           chosen: map<string, string>, after: Tree, a: map<Path, Content>, b: map<Path, Content>)
    requires OneResult(t, mountMap, files, writes) && Attempt(t, mountMap, files, writes, true, chosen, after)
    requires Outcome(CandidatesOf(mountMap, files.Keys), files, a) && Outcome(CandidatesOf(mountMap, files.Keys), files, b)
    ensures t.files + a == t.files + b
  {
    OutcomeAfter(t, mountMap, files, writes, chosen, after, a);
    OutcomeAfter(t, mountMap, files, writes, chosen, after, b);
  }

  lemma OutcomeAfter(t: Tree, mountMap: map<string, string>, files: map<string, Content>, writes: string -> bool,
                     chosen: map<string, string>, after: Tree, disk: map<Path, Content>)
    requires OneResult(t, mountMap, files, writes) && Attempt(t, mountMap, files, writes, true, chosen, after)
    requires Outcome(CandidatesOf(mountMap, files.Keys), files, disk)
    ensures after.files == t.files + disk
  {
    var place, order :| IsPlace(CandidatesOf(mountMap, files.Keys), place) && IsOrder(order, files.Keys)
                        && disk == DiskAfter(place, files, order);
    if Fits(t, place.Values) {
      var other := OutcomeIsLeft(t, mountMap, files, writes, place, order);
      assert after == Left(t, place, files, order);
    } else {
      var other := MisfitFails(t, mountMap, files, writes, place, after);
    }
  }

  lemma SameOnTop(t: map<Path, Content>, a: map<Path, Content>, b: map<Path, Content>)
    requires t + a == t + b && a.Keys !! t.Keys && b.Keys !! t.Keys
    ensures a == b
  {
    forall l
      ensures l in a <==> l in b
      ensures l in a && l in b ==> a[l] == b[l]
    {
      assert l in t + a <==> l in t + b;
      assert l in a ==> (t + a)[l] == a[l];
      assert l in b ==> (t + b)[l] == b[l];
    }
    assert a.Keys == b.Keys;
  }

  lemma OutcomeKeys(can: Candidates, files: map<string, Content>, disk: map<Path, Content>)
    requires can.Keys == files.Keys && Outcome(can, files, disk)
    ensures disk.Keys <= AllPlaces(can)
  {
    var place, order :| IsPlace(can, place) && IsOrder(order, files.Keys) && disk == DiskAfter(place, files, order);
    DiskKeys(place, files, order);
    forall l | l in disk
      ensures l in AllPlaces(can)
    {
      var p :| p in place && place[p] == l;
      assert p in can && l in can[p];
    }
  }

  /** For any mounts: when the loop can succeed, its result is the same for all orders exactly when the outcome is, so by
      OutcomeOrderFree exactly when files that may end up in the same place have the same content and every place where a
      file may end up gets one in any case. The host has none of these files before. */
  lemma ResultOrderFree(t: Tree, mountMap: map<string, string>, files: map<string, Content>, writes: string -> bool,
                        chosen: map<string, string>, after: Tree)
    requires Attempt(t, mountMap, files, writes, true, chosen, after)
    requires AllPlaces(CandidatesOf(mountMap, files.Keys)) !! t.files.Keys
    ensures OneResult(t, mountMap, files, writes) <==> OneOutcome(CandidatesOf(mountMap, files.Keys), files)
  {
    var can := CandidatesOf(mountMap, files.Keys);
    ChosenIsPlace(mountMap, files.Keys, chosen);
    assert forall p :: p in can ==> can[p] != {};
    if OneOutcome(can, files) {
      OutcomeGivesResult(t, mountMap, files, writes);
    }
    if OneResult(t, mountMap, files, writes) {
      forall a, b | Outcome(can, files, a) && Outcome(can, files, b)
        ensures a == b
      {
        ResultGivesOutcome(t, mountMap, files, writes, chosen, after, a, b);
        OutcomeKeys(can, files, a);
        OutcomeKeys(can, files, b);
        SameOnTop(t.files, a, b);
      }
    }
  }
}
