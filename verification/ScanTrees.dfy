/** Which directory graphs are trees to the scan: those with a home path for every
    directory, and so every tree with followed links upwards, however it branches. */
module ScanTrees {
  import opened Optional
  import opened GitIgnore
  import opened Scanning
  import opened ScanPlaces
  import opened ScanPruning

  // ---- Homes ---------------------------------------------------------------------------

  ghost predicate LeadsTo(w: World, root: Id, initial: seq<Rule>, path: seq<nat>, d: Id) {
    At(w, root, initial, path).Some? && At(w, root, initial, path).value.id == d && IsSimple(w, root, path)
  }

  /** A simple path to each directory that has one. */
  ghost function SomeHome(w: World, root: Id, initial: seq<Rule>): (home: Id -> seq<nat>)
    ensures forall d :: (exists path :: LeadsTo(w, root, initial, path, d)) ==> LeadsTo(w, root, initial, home(d), d)
  {
    d => if path: seq<nat> :| LeadsTo(w, root, initial, path, d) then path else []
  }

  /** A simple path may go on to any directory that is not on it. */
  lemma GoesOn(w: World, root: Id, initial: seq<Rule>, path: seq<nat>, i: nat)
    requires At(w, root, initial, path).Some? && IsSimple(w, root, path)
    requires var q := Below(w, At(w, root, initial, path).value, i);
      q.Some? && q.value.id !in Trail(w.fs, root, path)
    ensures At(w, root, initial, path + [i]) == Below(w, At(w, root, initial, path).value, i)
    ensures IsSimple(w, root, path + [i])
    ensures Trail(w.fs, root, path + [i])
      == Trail(w.fs, root, path) + [Below(w, At(w, root, initial, path).value, i).value.id]
  {
    hide RulesIn, IgnoredBy, InsideAny;
    assert (path + [i])[..|path|] == path;
    TrailEndsAt(w, root, initial, path);
    assert Trail(w.fs, root, path + [i])[..|path| + 1] == Trail(w.fs, root, path);
  }

  lemma RootLeadsToItself(w: World, root: Id, initial: seq<Rule>)
    ensures LeadsTo(w, root, initial, [], root)
  {
    assert Trail(w.fs, root, []) == [root];
  }

  lemma TreesHaveHomes(w: World, root: Id, initial: seq<Rule>)
    requires IsTree(w, root, initial)
    ensures TreeWithBackLinks(w, root, initial, SomeHome(w, root, initial))
  {
    hide At, IsSimple, Below, Trail, SomeHome, IsTree;
    var home := SomeHome(w, root, initial);
    RootLeadsToItself(w, root, initial);
    SameHome(w, root, initial, [], home(root), root);
    forall path, i: nat, p, q |
      && IsSimple(w, root, path) && At(w, root, initial, path) == Some(p) && Below(w, p, i) == Some(q)
      && q.id !in Trail(w.fs, root, path)
      ensures home(q.id) == path + [i]
    {
      GoesOn(w, root, initial, path, i);
      assert LeadsTo(w, root, initial, path + [i], q.id);
      SameHome(w, root, initial, path + [i], home(q.id), q.id);
    }
  }

  lemma SameHome(w: World, root: Id, initial: seq<Rule>, path: seq<nat>, other: seq<nat>, d: Id)
    requires IsTree(w, root, initial) && LeadsTo(w, root, initial, path, d) && LeadsTo(w, root, initial, other, d)
    ensures path == other
  {
    hide At, IsSimple;
  }

  /** The exact condition: a graph is a tree to the scan if and only if its directories
      have homes that simple paths leave only to go home or back. */
  lemma TreeExactlyWithHomes(w: World, root: Id, initial: seq<Rule>)
    ensures IsTree(w, root, initial) <==> exists home :: TreeWithBackLinks(w, root, initial, home)
  {
    hide IsTree, TreeWithBackLinks, SomeHome;
    if home :| TreeWithBackLinks(w, root, initial, home) {
      BackLinksKeepTree(w, root, initial, home);
    }
    if IsTree(w, root, initial) {
      TreesHaveHomes(w, root, initial);
    }
  }

  // ---- Trees with links upwards ----------------------------------------------------------

  /** The directory that holds a directory, and the number of its entry there. */
  datatype Holder = Holder(directory: Id, index: nat)

  /** Where the directories hang, and how deep. */
  datatype Layout = Layout(holder: Id -> Holder, depth: Id -> nat) {
    predicate HangsIn(d: Id) { depth(holder(d).directory) < depth(d) }

    /** `a` is `d` or a directory above it. */
    predicate IsAbove(a: Id, d: Id)
      decreases depth(d)
    {
      a == d || (HangsIn(d) && IsAbove(a, holder(d).directory))
    }

    function PathTo(d: Id): seq<nat>
      decreases depth(d)
    {
      if HangsIn(d) then PathTo(holder(d).directory) + [holder(d).index] else []
    }

    /** Every subdirectory entry is the one its directory hangs in, or leads upwards. */
    ghost predicate Fits(w: World, root: Id) {
      && depth(root) == 0
      && forall d: Id, i: nat :: i < |Entries(w, d)| && Entries(w, d)[i].kind.Directory? ==>
           FitsAt(d, i, Entries(w, d)[i].kind.target)
    }

    predicate FitsAt(d: Id, i: nat, target: Id) {
      IsAbove(target, d) || (holder(target) == Holder(d, i) && depth(target) == depth(d) + 1)
    }
  }

  /** A simple path goes down from holder to held, through all that is above. */
  lemma {:induction false} SimplePathGoesDown(w: World, root: Id, initial: seq<Rule>, l: Layout, path: seq<nat>)
    requires l.Fits(w, root) && At(w, root, initial, path).Some? && IsSimple(w, root, path)
    ensures var d := At(w, root, initial, path).value.id;
      path == l.PathTo(d) && forall a :: l.IsAbove(a, d) ==> a in Trail(w.fs, root, path)
  {
    hide RulesIn, IgnoredBy, InsideAny, Layout.PathTo, Layout.IsAbove, Layout.Fits, IsSimple, Trail;
    if path == [] {
      RootHangsNowhere(w, root, l);
    } else {
      var front, i := path[..|path| - 1], path[|path| - 1];
      var p, d := At(w, root, initial, front).value, At(w, root, initial, path).value.id;
      SimpleFront(w, root, path);
      SimplePathGoesDown(w, root, initial, l, front);
      LastIsNew(w, root, path);
      TrailEndsAt(w, root, initial, path);
      EntryFits(w, root, l, p.id, i);
      HeldBelow(l, p.id, i, d);
      TrailGrows(w, root, path);
      assert path == front + [i];
    }
  }

  lemma RootHangsNowhere(w: World, root: Id, l: Layout)
    requires l.Fits(w, root)
    ensures l.PathTo(root) == [] && forall a :: l.IsAbove(a, root) ==> a in Trail(w.fs, root, [])
  {}

  lemma EntryFits(w: World, root: Id, l: Layout, d: Id, i: nat)
    requires l.Fits(w, root) && i < |Entries(w, d)| && Entries(w, d)[i].kind.Directory?
    ensures l.FitsAt(d, i, Entries(w, d)[i].kind.target)
  {}

  lemma HeldBelow(l: Layout, d: Id, i: nat, target: Id)
    requires l.FitsAt(d, i, target) && !l.IsAbove(target, d)
    ensures l.PathTo(target) == l.PathTo(d) + [i]
    ensures forall a :: l.IsAbove(a, target) ==> a == target || l.IsAbove(a, d)
  {}

  lemma TrailGrows(w: World, root: Id, path: seq<nat>)
    requires path != []
    ensures forall a :: a in Trail(w.fs, root, path[..|path| - 1]) ==> a in Trail(w.fs, root, path)
    ensures Trail(w.fs, root, path)[|path|] in Trail(w.fs, root, path)
  {}

  /** Any tree with followed links upwards is a tree to the scan, however it branches. */
  lemma LinksUpwardsKeepTree(w: World, root: Id, initial: seq<Rule>, l: Layout)
    requires l.Fits(w, root)
    ensures TreeWithBackLinks(w, root, initial, d => l.PathTo(d))
    ensures IsTree(w, root, initial)
  {
    hide At, IsSimple, Trail;
    var home := d => l.PathTo(d);
    forall path, i: nat, p, q |
      && IsSimple(w, root, path) && At(w, root, initial, path) == Some(p) && Below(w, p, i) == Some(q)
      && q.id !in Trail(w.fs, root, path)
      ensures home(q.id) == path + [i]
    {
      GoesOn(w, root, initial, path, i);
      SimplePathGoesDown(w, root, initial, l, path + [i]);
    }
    assert TreeWithBackLinks(w, root, initial, home);
    BackLinksKeepTree(w, root, initial, home);
  }

  /** A folder holding folders of these names, each of which, like itself, holds a
      followed link `z` back to it. */
  function Star(names: seq<string>): World {
    World(map d | d in UpTo(|names|) :: StarListing(names, d), PLAIN.(followSymlinks := true), UNLIMITED)
  }

  function StarListing(names: seq<string>, d: Id): Listing
    requires d <= |names|
  {
    if d > 0 then Listing([], [LinkUp(names[d - 1] + "/z")])
    else Listing([], seq(|names|, i requires 0 <= i < |names| => Folder(names[i], i + 1)) + [LinkUp("z")])
  }

  function UpTo(n: nat): (ids: set<Id>)
    ensures forall d: Id :: d in ids <==> d <= n
  {
    if n == 0 then {n} else UpTo(n - 1) + {n}
  }

  function Folder(name: string, d: Id): Entry { Entry(name, Some(name), "", Directory(d, false)) }

  function LinkUp(path: string): Entry { Entry("z", Some(path), "", Directory(0, true)) }

  /** Such links close a cycle at every folder and change nothing. */
  lemma StarIsTree(names: seq<string>)
    ensures IsTree(Star(names), 0, [])
  {
    var l := Layout((d: Id) => Holder(0, if d == 0 then 0 else d - 1), (d: Id) => if d == 0 then 0 else 1);
    var w := Star(names);
    forall d: Id, i: nat | i < |Entries(w, d)| && Entries(w, d)[i].kind.Directory?
      ensures l.FitsAt(d, i, Entries(w, d)[i].kind.target)
    {
      if d == 0 && i < |names| {
        assert Entries(w, d)[i] == Folder(names[i], i + 1);
      } else {
        assert Entries(w, d)[i].kind.target == 0;
      }
    }
    LinksUpwardsKeepTree(Star(names), 0, [], l);
  }
}
