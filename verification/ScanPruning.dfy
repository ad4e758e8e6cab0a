/** Not walking into excluded directories, and when that can be noticed. */
module ScanPruning {
  import opened Optional
  import opened GitIgnore
  import opened Scanning
  import opened ScanPlaces

  /** The world without excluded directories: nothing is pruned there. */
  function Unpruned(w: World): World { w.(options := w.options.(excludedDirectories := [])) }

  // ---- Exactly what pruning removes ---------------------------------------------------

  /** Entry `i` of the directory lies in an excluded directory. */
  predicate Excluded(w: World, d: Id, i: nat) {
    && i < |Entries(w, d)| && Entries(w, d)[i].relative.Some?
    && InsideAny(Entries(w, d)[i].relative.value, w.options.excludedDirectories)
  }

  /** No directory entry on the path lies in an excluded directory. */
  predicate Clear(w: World, root: Id, path: seq<nat>) {
    forall k :: 0 <= k < |path| ==> !Excluded(w, Trail(w.fs, root, path)[k], path[k])
  }

  lemma ClearSteps(w: World, root: Id, path: seq<nat>)
    requires path != []
    ensures var front := path[..|path| - 1];
      Clear(w, root, path) <==> Clear(w, root, front) && !Excluded(w, Trail(w.fs, root, front)[|front|], path[|front|])
  {
    hide Excluded;
    var front := path[..|path| - 1];
    var trail, before := Trail(w.fs, root, path), Trail(w.fs, root, front);
    assert forall k :: 0 <= k < |before| ==> trail[k] == before[k];
    if Clear(w, root, path) {
      forall k | 0 <= k < |front| ensures !Excluded(w, before[k], front[k]) { assert front[k] == path[k]; }
    }
  }

  /** A path is left by pruning if and only if it is there without and is clear. */
  lemma {:induction false} PrunedPaths(w: World, root: Id, initial: seq<Rule>, path: seq<nat>, p: Place)
    ensures At(w, root, initial, path) == Some(p) <==>
      At(Unpruned(w), root, initial, path) == Some(p) && Clear(w, root, path)
    decreases |path|, 0
  {
    hide Ignored, InsideAny, Clear, Trail;
    if path == [] {
      NothingExcluded(w, root);
    } else {
      ClearSteps(w, root, path);
      var front, i := path[..|path| - 1], path[|path| - 1];
      PrunedFront(w, root, initial, front);
      if At(Unpruned(w), root, initial, front).Some? {
        TrailEndsAt(Unpruned(w), root, initial, front);
        PrunedStep(w, At(Unpruned(w), root, initial, front).value, i);
      }
    }
  }

  lemma {:induction false} PrunedFront(w: World, root: Id, initial: seq<Rule>, path: seq<nat>)
    ensures At(w, root, initial, path)
      == if Clear(w, root, path) then At(Unpruned(w), root, initial, path) else None
    decreases |path|, 1
  {
    hide At, Clear;
    var here, there := At(w, root, initial, path), At(Unpruned(w), root, initial, path);
    if here.Some? { PrunedPaths(w, root, initial, path, here.value); }
    if there.Some? { PrunedPaths(w, root, initial, path, there.value); }
  }

  lemma NothingExcluded(w: World, root: Id)
    ensures Clear(w, root, [])
  {}

  lemma PrunedStep(w: World, p: Place, i: nat)
    ensures Below(w, p, i) == if Excluded(w, p.id, i) then None else Below(Unpruned(w), p, i)
  {
    hide Ignored;
  }

  /** Some simple path that avoids pruning leads to a directory where the file passes. */
  ghost predicate SelectedClear(w: World, root: Id, initial: seq<Rule>, f: Found) {
    exists path: seq<nat>, p: Place ::
      && At(Unpruned(w), root, initial, path) == Some(p) && IsSimple(w, root, path) && Clear(w, root, path)
      && p.id == f.directory && StreamsAt(w, p, f.index)
  }

  /** What is left with pruning, on every graph: the files that pass at the end of an
      unpruned simple path with no excluded directory on it. */
  lemma PruningRemovesExactly(w: World, root: Id, initial: seq<Rule>, f: Found)
    ensures Selected(w, root, initial, f) <==> SelectedClear(w, root, initial, f)
  {
    hide At, StreamsAt, IsSimple, Clear;
    if p: Place :| p.id == f.directory && Reached(w, root, initial, p) && StreamsAt(w, p, f.index) {
      var path :| At(w, root, initial, path) == Some(p) && IsSimple(w, root, path);
      PrunedPaths(w, root, initial, path, p);
    }
    if SelectedClear(w, root, initial, f) {
      var path: seq<nat>, p: Place :|
        && At(Unpruned(w), root, initial, path) == Some(p) && IsSimple(w, root, path) && Clear(w, root, path)
        && p.id == f.directory && StreamsAt(w, p, f.index);
      PrunedPaths(w, root, initial, path, p);
    }
  }

  // ---- Where pruning cannot be noticed ----------------------------------------------------

  /** Whatever a directory contains has a relative path inside the directory's own. */
  ghost predicate Nested(w: World) {
    forall d: Id, i: nat, j: nat ::
      && i < |Entries(w, d)| && Entries(w, d)[i].kind.Directory?
      && j < |Entries(w, Entries(w, d)[i].kind.target)| ==>
        IsInside(Entries(w, Entries(w, d)[i].kind.target)[j], Entries(w, d)[i])
  }

  predicate IsInside(content: Entry, directory: Entry) {
    directory.relative.Some? && content.relative.Some? ==>
      SameOrInside(content.relative.value, directory.relative.value)
  }

  /** Contents are named below their directory, as they are unless links are followed. */
  ghost predicate NamedBelow(w: World) {
    forall d: Id, i: nat, j: nat ::
      && i < |Entries(w, d)| && Entries(w, d)[i].kind.Directory?
      && j < |Entries(w, Entries(w, d)[i].kind.target)| ==>
        HasPathBelow(Entries(w, Entries(w, d)[i].kind.target)[j], Entries(w, d)[i])
  }

  predicate HasPathBelow(content: Entry, directory: Entry) {
    directory.relative.Some? && content.relative.Some? ==>
      content.relative.value == directory.relative.value + "/" + content.name
  }

  lemma TreesAreNested(w: World)
    requires NamedBelow(w)
    ensures Nested(w)
  {
    hide SameOrInside;
    forall d: Id, i: nat, j: nat |
      && i < |Entries(w, d)| && Entries(w, d)[i].kind.Directory?
      && j < |Entries(w, Entries(w, d)[i].kind.target)|
      ensures IsInside(Entries(w, Entries(w, d)[i].kind.target)[j], Entries(w, d)[i])
    {
      var directory, content := Entries(w, d)[i], Entries(w, Entries(w, d)[i].kind.target)[j];
      assert HasPathBelow(content, directory);
      if directory.relative.Some? && content.relative.Some? {
        InsideIsExtension(content.relative.value, directory.relative.value);
      }
    }
  }

  /** All contents of the directory are inside one of the excluded directories. */
  ghost predicate WhollyExcluded(w: World, d: Id) {
    exists b :: 0 <= b < |w.options.excludedDirectories| && ContentsInside(w, d, w.options.excludedDirectories[b])
  }

  ghost predicate ContentsInside(w: World, d: Id, base: string) {
    forall j :: 0 <= j < |Entries(w, d)| && Entries(w, d)[j].relative.Some? ==>
      SameOrInside(Entries(w, d)[j].relative.value, base)
  }

  lemma NestedContents(w: World, d: Id, i: nat, base: string)
    requires Nested(w) && i < |Entries(w, d)| && Entries(w, d)[i].kind.Directory? && Entries(w, d)[i].relative.Some?
    requires SameOrInside(Entries(w, d)[i].relative.value, base)
    ensures ContentsInside(w, Entries(w, d)[i].kind.target, base)
  {
    hide SameOrInside;
    var e := Entries(w, d)[i];
    forall j | 0 <= j < |Entries(w, e.kind.target)| && Entries(w, e.kind.target)[j].relative.Some?
      ensures SameOrInside(Entries(w, e.kind.target)[j].relative.value, base)
    {
      InsideIsTransitive(Entries(w, e.kind.target)[j].relative.value, e.relative.value, base);
    }
  }

  /** Below an excluded directory everything is excluded. */
  lemma {:induction false} BelowExcluded(w: World, root: Id, initial: seq<Rule>, path: seq<nat>)
    requires Nested(w) && At(Unpruned(w), root, initial, path).Some? && !Clear(w, root, path)
    ensures WhollyExcluded(w, At(Unpruned(w), root, initial, path).value.id)
  {
    hide Nested, ContentsInside, Ignored, SameOrInside, Clear, Trail;
    if path == [] {
      NothingExcluded(w, root);
    } else {
      var front, i := path[..|path| - 1], path[|path| - 1];
      var parent := At(Unpruned(w), root, initial, front).value;
      var e := Entries(w, parent.id)[i];
      ClearSteps(w, root, path);
      TrailEndsAt(Unpruned(w), root, initial, front);
      if Clear(w, root, front) {
        var b :| 0 <= b < |w.options.excludedDirectories|
          && SameOrInside(e.relative.value, w.options.excludedDirectories[b]);
        NestedContents(w, parent.id, i, w.options.excludedDirectories[b]);
      } else {
        BelowExcluded(w, root, initial, front);
        var b :| 0 <= b < |w.options.excludedDirectories|
          && ContentsInside(w, parent.id, w.options.excludedDirectories[b]);
        EntryInside(w, parent.id, i, w.options.excludedDirectories[b]);
        NestedContents(w, parent.id, i, w.options.excludedDirectories[b]);
      }
    }
  }

  lemma EntryInside(w: World, d: Id, i: nat, base: string)
    requires ContentsInside(w, d, base) && i < |Entries(w, d)| && Entries(w, d)[i].relative.Some?
    ensures SameOrInside(Entries(w, d)[i].relative.value, base)
  {}

  /** Where contents are nested, not walking into excluded directories never changes
      which files are selected. */
  lemma PruningIsInvisible(w: World, root: Id, initial: seq<Rule>, f: Found)
    requires Nested(w)
    ensures Selected(w, root, initial, f) <==>
      exists p: Place :: p.id == f.directory && Reached(Unpruned(w), root, initial, p) && StreamsAt(w, p, f.index)
  {
    hide Nested, At, StreamsAt, WhollyExcluded, Clear, Simple;
    PruningRemovesExactly(w, root, initial, f);
    if p: Place :| p.id == f.directory && Reached(Unpruned(w), root, initial, p) && StreamsAt(w, p, f.index) {
      var path :| At(Unpruned(w), root, initial, path) == Some(p) && IsSimple(Unpruned(w), root, path);
      ExcludedDoNotStream(w, p, f.index);
      if !Clear(w, root, path) { BelowExcluded(w, root, initial, path); }
    }
  }

  lemma ExcludedDoNotStream(w: World, p: Place, i: nat)
    requires StreamsAt(w, p, i)
    ensures !WhollyExcluded(w, p.id)
  {
    hide SameOrInside, IgnoredBy, AllowedExtension, AnyGlob, ContentsInside;
    var e := Entries(w, p.id)[i];
    assert InScope(w.options, e.relative.value);
    forall b | 0 <= b < |w.options.excludedDirectories|
      ensures !ContentsInside(w, p.id, w.options.excludedDirectories[b])
    {
      if ContentsInside(w, p.id, w.options.excludedDirectories[b]) {
        EntryInside(w, p.id, i, w.options.excludedDirectories[b]);
      }
    }
  }

  // ---- Where exactness ends --------------------------------------------------------------------------

  const PLAIN := Options(true, false, true, true, [], [], [], [], [], 100)

  function NamedFile(name: string, relative: string): Entry {
    Entry(name, Some(relative), "", RegularFile(Some(1), true))
  }

  /** A file linked from inside an excluded directory is found only without pruning. */
  lemma PruningHidesLinkedFile() returns (w: World, f: Found)
    ensures !Nested(w) && !Selected(w, 0, [], f)
    ensures exists p: Place :: p.id == f.directory && Reached(Unpruned(w), 0, [], p) && StreamsAt(w, p, f.index)
  {
    var b := Entry("b", Some("b"), "", Directory(1, false));
    var c := NamedFile("c", "c");
    var options := PLAIN.(excludedDirectories := ["b"], respectGitignore := false);
    w := World(map[0 := Listing([], [b]), 1 := Listing([], [c])], options, UNLIMITED);
    f := Found(1, 0);
    var u, p := Unpruned(w), Place(1, []);
    assert Entries(w, 0) == [b] && Entries(w, 1) == [c];
    OneStepTrail(u);
    assert At(u, 0, [], []) == Some(Place(0, []));
    assert At(u, 0, [], [0]) == Below(u, Place(0, []), 0) == Some(p) by { assert [0 as nat][..0] == []; }
    assert Reached(u, 0, [], p) && StreamsAt(w, p, 0);
    assert Entries(w, 0)[0].kind.target == 1 && !IsInside(c, b);
    assert !Enters(w.options, [], b) by { assert SameOrInside("b", w.options.excludedDirectories[0]); }
    forall path ensures At(w, 0, [], path).Some? ==> At(w, 0, [], path).value.id == 0 {
      OnlyRoot(w, path);
    }
  }

  lemma OneStepTrail(w: World)
    requires Target(w.fs, 0, 0) == 1
    ensures IsSimple(w, 0, [0])
  {
    assert [0 as nat][..0] == [];
    assert Trail(w.fs, 0, []) == [0];
  }

  lemma {:induction false} OnlyRoot(w: World, path: seq<nat>)
    requires !w.options.respectGitignore && |Entries(w, 0)| == 1 && !Enters(w.options, [], Entries(w, 0)[0])
    ensures At(w, 0, [], path).Some? ==> At(w, 0, [], path).value == Place(0, [])
  {
    hide Enters;
    if path != [] {
      OnlyRoot(w, path[..|path| - 1]);
    }
  }
}
