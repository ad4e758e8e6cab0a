/** What the walk must find: the directories that paths reach, and the rules in
 force there. */
module ScanPlaces {
  import opened Optional
  import opened GitIgnore
  import opened Scanning

  datatype Place = Place(id: Id, rules: seq<Rule>)

  /** Following entry numbers from the root: the directory reached and the rules in
      force there, provided every directory on the way passes the filters. */
  ghost function At(w: World, root: Id, initial: seq<Rule>, path: seq<nat>): Option<Place> {
    if path == [] then Some(Place(root, RulesIn(w, root, initial))) else
      match At(w, root, initial, path[..|path| - 1])
      case None => None
      case Some(p) => Below(w, p, path[|path| - 1])
  }

  ghost function Below(w: World, p: Place, i: nat): Option<Place> {
    if i < |Entries(w, p.id)| && Enters(w.options, p.rules, Entries(w, p.id)[i]) then
      var target := Entries(w, p.id)[i].kind.target;
      Some(Place(target, RulesIn(w, target, p.rules)))
    else None
  }

  /** The directories on a path, the root first. */
  function Trail(fs: map<Id, Listing>, root: Id, path: seq<nat>): (trail: seq<Id>)
    ensures |trail| == |path| + 1
  {
    if path == [] then [root] else
      var front := Trail(fs, root, path[..|path| - 1]);
      front + [Target(fs, front[|front| - 1], path[|path| - 1])]
  }

  function Target(fs: map<Id, Listing>, d: Id, i: nat): Id {
    if d in fs && i < |fs[d].entries| && fs[d].entries[i].kind.Directory? then fs[d].entries[i].kind.target else d
  }

  /** No directory comes twice: the path does not go round a link cycle. */
  predicate Simple(trail: seq<Id>) {
    forall i, j :: 0 <= i < j < |trail| ==> trail[i] != trail[j]
  }

  predicate IsSimple(w: World, root: Id, path: seq<nat>) { Simple(Trail(w.fs, root, path)) }

  lemma {:induction false} TrailEndsAt(w: World, root: Id, initial: seq<Rule>, path: seq<nat>)
    requires At(w, root, initial, path).Some?
    ensures Trail(w.fs, root, path)[|path|] == At(w, root, initial, path).value.id
  {
    hide RulesIn, IgnoredBy, InsideAny;
    if path != [] {
      TrailEndsAt(w, root, initial, path[..|path| - 1]);
    }
  }

  lemma SimpleFront(w: World, root: Id, path: seq<nat>)
    requires path != [] && IsSimple(w, root, path)
    ensures IsSimple(w, root, path[..|path| - 1])
  {
    var front, trail := Trail(w.fs, root, path[..|path| - 1]), Trail(w.fs, root, path);
    assert forall i :: 0 <= i < |front| ==> front[i] == trail[i];
  }

  /** A simple path of passing directories leads to the place. */
  ghost predicate Reached(w: World, root: Id, initial: seq<Rule>, p: Place) {
    exists path :: At(w, root, initial, path) == Some(p) && IsSimple(w, root, path)
  }

  ghost predicate StreamsAt(w: World, p: Place, i: nat) {
    i < |Entries(w, p.id)| && Streams(w.options, p.rules, Entries(w, p.id)[i])
  }

  /** The file lies at the end of a simple path of directories that pass, and passes itself. */
  ghost predicate Selected(w: World, root: Id, initial: seq<Rule>, f: Found) {
    exists p: Place :: p.id == f.directory && Reached(w, root, initial, p) && StreamsAt(w, p, f.index)
  }

  /** Two places of one directory decide alike about an entry. */
  ghost predicate AgreeAt(w: World, p: Place, q: Place, i: nat) {
    && (StreamsAt(w, p, i) <==> StreamsAt(w, q, i))
    && (Below(w, p, i).Some? <==> Below(w, q, i).Some?)
  }

  /** No two simple paths to a directory decide differently about one of its entries. */
  ghost predicate Agreeing(w: World, root: Id, initial: seq<Rule>) {
    forall p, q, i: nat :: Reached(w, root, initial, p) && Reached(w, root, initial, q) && p.id == q.id ==>
      AgreeAt(w, p, q, i)
  }

  /** Directories reached by two simple paths are reached under the same rules. */
  ghost predicate Coherent(w: World, root: Id, initial: seq<Rule>) {
    forall p, q :: Reached(w, root, initial, p) && Reached(w, root, initial, q) && p.id == q.id ==> p == q
  }

  lemma SameRulesAgree(w: World, root: Id, initial: seq<Rule>)
    requires Coherent(w, root, initial)
    ensures Agreeing(w, root, initial)
  {
    hide Reached, StreamsAt, Below;
  }

  /** Only one simple path leads to each directory. */
  ghost predicate IsTree(w: World, root: Id, initial: seq<Rule>) {
    forall path, other, p, q ::
      && At(w, root, initial, path) == Some(p) && IsSimple(w, root, path)
      && At(w, root, initial, other) == Some(q) && IsSimple(w, root, other) && p.id == q.id
      ==> path == other
  }

  lemma TreesAreCoherent(w: World, root: Id, initial: seq<Rule>)
    requires IsTree(w, root, initial)
    ensures Coherent(w, root, initial)
  {
    hide At, IsSimple;
    forall p, q | Reached(w, root, initial, p) && Reached(w, root, initial, q) && p.id == q.id
      ensures p == q
    {
      var path :| At(w, root, initial, path) == Some(p) && IsSimple(w, root, path);
      var other :| At(w, root, initial, other) == Some(q) && IsSimple(w, root, other);
      assert path == other;
    }
  }

  /** Directories have a home path; where a simple path goes on in any other way, it
      leads back to a directory on it, as a link to a parent directory does. */
  ghost predicate TreeWithBackLinks(w: World, root: Id, initial: seq<Rule>, home: Id -> seq<nat>) {
    && home(root) == []
    && forall path, i: nat, p, q ::
         IsSimple(w, root, path) && At(w, root, initial, path) == Some(p) && Below(w, p, i) == Some(q) ==>
           home(q.id) == path + [i] || q.id in Trail(w.fs, root, path)
  }

  lemma {:induction false} SimplePathIsHome(w: World, root: Id, initial: seq<Rule>, home: Id -> seq<nat>,
      path: seq<nat>)
    requires TreeWithBackLinks(w, root, initial, home)
    requires At(w, root, initial, path).Some? && IsSimple(w, root, path)
    ensures path == home(At(w, root, initial, path).value.id)
  {
    hide Below, Trail;
    if path != [] {
      var front, i := path[..|path| - 1], path[|path| - 1];
      var p := At(w, root, initial, front).value;
      TrailEndsAt(w, root, initial, path);
      LastIsNew(w, root, path);
      SimpleFront(w, root, path);
      assert path == front + [i];
    }
  }

  lemma LastIsNew(w: World, root: Id, path: seq<nat>)
    requires path != [] && IsSimple(w, root, path)
    ensures Trail(w.fs, root, path)[|path|] !in Trail(w.fs, root, path[..|path| - 1])
  {
    var front, trail := Trail(w.fs, root, path[..|path| - 1]), Trail(w.fs, root, path);
    assert forall i :: 0 <= i < |front| ==> front[i] == trail[i];
  }

  /** Followed links back to a directory on the way, with all the cycles they make,
      leave the scan as exact as a tree does. */
  lemma BackLinksKeepTree(w: World, root: Id, initial: seq<Rule>, home: Id -> seq<nat>)
    requires TreeWithBackLinks(w, root, initial, home)
    ensures IsTree(w, root, initial)
  {
    hide At, IsSimple, TreeWithBackLinks;
    forall path, other, p, q |
      && At(w, root, initial, path) == Some(p) && IsSimple(w, root, path)
      && At(w, root, initial, other) == Some(q) && IsSimple(w, root, other) && p.id == q.id
      ensures path == other
    {
      SimplePathIsHome(w, root, initial, home, path);
      SimplePathIsHome(w, root, initial, home, other);
    }
  }

  /** Rules in force: the initial ones, then each ancestor's, outermost first;
      nothing from a sibling. */
  ghost function AncestorRules(w: World, root: Id, initial: seq<Rule>, path: seq<nat>): seq<Rule>
    requires At(w, root, initial, path).Some?
  {
    var here := At(w, root, initial, path).value.id;
    var own := if here in w.fs then w.fs[here].ignoreRules else [];
    if path == [] then own else AncestorRules(w, root, initial, path[..|path| - 1]) + own
  }

  lemma {:induction false} RulesInForce(w: World, root: Id, initial: seq<Rule>, path: seq<nat>)
    requires At(w, root, initial, path).Some?
    ensures At(w, root, initial, path).value.rules
      == if w.options.respectGitignore then initial + AncestorRules(w, root, initial, path) else initial
  {
    hide Enters;
    if path != [] {
      RulesInForce(w, root, initial, path[..|path| - 1]);
      assert At(w, root, initial, path) == Below(w, At(w, root, initial, path[..|path| - 1]).value, path[|path| - 1]);
    }
  }

  lemma WithoutIgnoreFilesCoherent(w: World, root: Id, initial: seq<Rule>)
    requires !w.options.respectGitignore
    ensures Coherent(w, root, initial)
  {
    hide At, IsSimple;
    forall p, q | Reached(w, root, initial, p) && Reached(w, root, initial, q) && p.id == q.id
      ensures p == q
    {
      var path :| At(w, root, initial, path) == Some(p) && IsSimple(w, root, path);
      var other :| At(w, root, initial, other) == Some(q) && IsSimple(w, root, other);
      RulesInForce(w, root, initial, path);
      RulesInForce(w, root, initial, other);
    }
  }
}
