/** Everything that should be found is streamed. */
module ScanExactness {
  import opened Optional
  import opened GitIgnore
  import opened Scanning
  import opened ScanPlaces
  import opened ScanRuns
  import opened ScanSoundness

  // ---- Completeness: everything that should be found -----------------------------------------

  ghost predicate ClosedAt(w: World, s: Run, p: Place, i: nat)
    requires i < |Entries(w, p.id)|
  {
    && (Enters(w.options, p.rules, Entries(w, p.id)[i]) ==> Entries(w, p.id)[i].kind.target in s.entered)
    && (Streams(w.options, p.rules, Entries(w, p.id)[i]) ==> Found(p.id, i) in s.streamed)
  }

  /** All that passes in an entered directory is entered or streamed. */
  ghost predicate Closed(w: World, s: Run, d: Id)
    requires d in s.entered
  {
    forall i :: 0 <= i < |Entries(w, d)| ==> ClosedAt(w, s, Place(d, s.entered[d]), i)
  }

  ghost predicate NewAreClosed(w: World, s: Run, r: Run) {
    forall d :: d in r.entered && d !in s.entered ==> Closed(w, r, d)
  }

  lemma StaysClosedAt(w: World, s: Run, r: Run, p: Place, i: nat)
    requires Extends(s, r) && i < |Entries(w, p.id)| && ClosedAt(w, s, p, i)
    ensures ClosedAt(w, r, p, i)
  {
    hide Enters, Streams;
    DirectoryHasTarget(w.options, p.rules, Entries(w, p.id)[i]);
    if Found(p.id, i) in s.streamed {
      var k :| 0 <= k < |s.streamed| && s.streamed[k] == Found(p.id, i);
      assert r.streamed[k] == Found(p.id, i);
    }
  }

  lemma StaysClosed(w: World, s: Run, r: Run, d: Id)
    requires d in s.entered && Extends(s, r) && Closed(w, s, d)
    ensures Closed(w, r, d)
  {
    hide ClosedAt;
    forall i | 0 <= i < |Entries(w, d)| ensures ClosedAt(w, r, Place(d, r.entered[d]), i) {
      StaysClosedAt(w, s, r, Place(d, s.entered[d]), i);
    }
  }

  lemma ClosedInTwoSteps(w: World, s: Run, t: Run, r: Run)
    requires Extends(t, r) && NewAreClosed(w, s, t) && NewAreClosed(w, t, r)
    ensures NewAreClosed(w, s, r)
  {
    hide Closed;
    forall d | d in r.entered && d !in s.entered ensures Closed(w, r, d) {
      if d in t.entered { StaysClosed(w, t, r, d); }
    }
  }

  lemma {:induction false} WalkComplete(w: World, id: Id, inherited: seq<Rule>, s: Run)
    requires Walk(w, id, inherited, s).goOn
    ensures var r := Walk(w, id, inherited, s); id in r.entered && NewAreClosed(w, s, r)
    decreases Unvisited(w, s.entered.Keys), 0, 0
  {
    hide Unvisited, RulesIn, WalkEntries, ClosedAt;
    if id !in s.entered && id in w.fs {
      var rules := RulesIn(w, id, inherited);
      var inside := s.(entered := s.entered[id := rules]);
      FewerUnvisited(w, s.entered.Keys, inside.entered.Keys);
      EntriesComplete(w, id, rules, 0, inside);
      EntriesExtend(w, id, rules, 0, inside);
    }
  }

  lemma {:induction false} EntriesComplete(w: World, id: Id, rules: seq<Rule>, i: nat, s: Run)
    requires i <= |Entries(w, id)| && id in s.entered && s.entered[id] == rules
    requires WalkEntries(w, id, rules, i, s).goOn
    ensures var r := WalkEntries(w, id, rules, i, s);
      NewAreClosed(w, s, r) && forall k :: i <= k < |Entries(w, id)| ==> ClosedAt(w, r, Place(id, rules), k)
    decreases Unvisited(w, s.entered.Keys), 1, |Entries(w, id)| - i
  {
    hide Unvisited, Visit, Walk, ClosedAt, Closed, Extends;
    if i < |Entries(w, id)| {
      var polled := s.(polls := s.polls + 1);
      var next := Visit(w, id, rules, i, polled);
      VisitExtends(w, id, rules, i, polled);
      VisitComplete(w, id, rules, i, polled);
      FewerUnvisited(w, s.entered.Keys, next.entered.Keys);
      RulesKept(polled, next, id);
      EntriesComplete(w, id, rules, i + 1, next);
      EntriesExtend(w, id, rules, i + 1, next);
      var r := WalkEntries(w, id, rules, i + 1, next);
      ClosedInTwoSteps(w, polled, next, r);
      StaysClosedAt(w, next, r, Place(id, rules), i);
      assert NewAreClosed(w, s, r);
    }
  }

  lemma RulesKept(s: Run, r: Run, id: Id)
    requires Extends(s, r) && id in s.entered
    ensures id in r.entered && r.entered[id] == s.entered[id]
  {}

  lemma {:induction false} VisitComplete(w: World, id: Id, rules: seq<Rule>, i: nat, s: Run)
    requires i < |Entries(w, id)| && Visit(w, id, rules, i, s).goOn
    ensures var r := Visit(w, id, rules, i, s); NewAreClosed(w, s, r) && ClosedAt(w, r, Place(id, rules), i)
    decreases Unvisited(w, s.entered.Keys), 1, 0
  {
    hide Unvisited, Walk, Streams, Enters, CountsAsIgnored, CountsAsHidden, Closed;
    var e := Entries(w, id)[i];
    DirectoryHasTarget(w.options, rules, e);
    if Enters(w.options, rules, e) {
      WalkComplete(w, e.kind.target, rules, s);
    }
  }

  // ---- The scan is exact -----------------------------------------------------------------------

  /** Every directory a simple path reaches is entered. */
  lemma {:induction false} ReachedIsEntered(w: World, root: Id, initial: seq<Rule>, path: seq<nat>, r: Run)
    requires Agreeing(w, root, initial) && Sound(w, root, initial, r)
    requires root in r.entered && forall d :: d in r.entered ==> Closed(w, r, d)
    requires At(w, root, initial, path).Some? && IsSimple(w, root, path)
    ensures At(w, root, initial, path).value.id in r.entered
  {
    hide RulesIn, Streams, Enters, Closed, ClosedAt, Reached, ReachedWithin, IsSimple, Agreeing;
    if path != [] {
      var front, i := path[..|path| - 1], path[|path| - 1];
      var parent := At(w, root, initial, front).value;
      SimpleFront(w, root, path);
      ReachedIsEntered(w, root, initial, front, r);
      PathReaches(w, root, initial, front);
      FirstRulesAgree(w, root, initial, parent, i, r);
      ClosedHolds(w, r, Place(parent.id, r.entered[parent.id]), i);
    }
  }

  /** Any path to an entered directory decides about its entries as the first one did. */
  lemma FirstRulesAgree(w: World, root: Id, initial: seq<Rule>, p: Place, i: nat, r: Run)
    requires Agreeing(w, root, initial) && Sound(w, root, initial, r)
    requires Reached(w, root, initial, p) && p.id in r.entered
    ensures AgreeAt(w, p, Place(p.id, r.entered[p.id]), i)
  {
    hide Reached, ReachedWithin, AgreeAt;
    WithinIsReached(w, root, initial, Place(p.id, r.entered[p.id]), r.entered.Keys);
  }

  lemma PathReaches(w: World, root: Id, initial: seq<Rule>, path: seq<nat>)
    requires At(w, root, initial, path).Some? && IsSimple(w, root, path)
    ensures Reached(w, root, initial, At(w, root, initial, path).value)
  {}

  lemma ClosedHolds(w: World, r: Run, p: Place, i: nat)
    requires p.id in r.entered && r.entered[p.id] == p.rules && Closed(w, r, p.id)
    ensures i < |Entries(w, p.id)| && Enters(w.options, p.rules, Entries(w, p.id)[i])
      ==> Entries(w, p.id)[i].kind.Directory? && Entries(w, p.id)[i].kind.target in r.entered
    ensures i < |Entries(w, p.id)| && Streams(w.options, p.rules, Entries(w, p.id)[i]) ==> Found(p.id, i) in r.streamed
  {
    hide Streams, Enters;
    if i < |Entries(w, p.id)| {
      assert ClosedAt(w, r, Place(p.id, r.entered[p.id]), i);
      DirectoryHasTarget(w.options, p.rules, Entries(w, p.id)[i]);
    }
  }

  /** On any graph the scan ends, streams only selected files, and none twice. */
  lemma ScanIsSound(w: World, root: Id, initial: seq<Rule>)
    ensures var r := Scan(w, root, initial);
      && Sound(w, root, initial, r) && Once(r)
      && forall f :: f in r.streamed ==> Selected(w, root, initial, f)
  {
    hide Walk, At, StreamsAt, ReachedWithin, Reached;
    RootIsReached(w, root, initial);
    WalkSound(w, root, initial, root, initial, START);
    WalkOnce(w, root, initial, START);
    var r := Scan(w, root, initial);
    forall f | f in r.streamed ensures Selected(w, root, initial, f) {
      var p := Place(f.directory, r.entered[f.directory]);
      WithinIsReached(w, root, initial, p, r.entered.Keys);
      assert StreamsAt(w, p, f.index);
    }
  }

  lemma RootIsReached(w: World, root: Id, initial: seq<Rule>)
    ensures ReachedWithin(w, root, initial, Place(root, RulesIn(w, root, initial)), START.entered.Keys + {root})
  {
    var path: seq<nat> := [];
    assert At(w, root, initial, path) == Some(Place(root, RulesIn(w, root, initial)));
    assert Trail(w.fs, root, path) == [root];
    assert IsSimple(w, root, path) && Within(w, root, path, {root});
  }

  /** On every graph: unless stopped, the scan streams exactly the files that pass in
      the directories it entered, under the rules of the path it first took there. */
  lemma ScanIsExactUnderFirstRules(w: World, root: Id, initial: seq<Rule>, f: Found)
    requires w.limits == UNLIMITED
    ensures var r := Scan(w, root, initial);
      f in r.streamed <==>
        f.directory in r.entered && StreamsAt(w, Place(f.directory, r.entered[f.directory]), f.index)
  {
    hide Walk, At, StreamsAt, Closed, ReachedWithin;
    ScanIsSound(w, root, initial);
    var r := Scan(w, root, initial);
    WalkExtends(w, root, initial, START);
    WalkComplete(w, root, initial, START);
    if f.directory in r.entered {
      var p := Place(f.directory, r.entered[f.directory]);
      ClosedHolds(w, r, p, f.index);
      StreamsAtMeans(w, p, f.index);
    }
  }

  /** Unless it is stopped or refused, the scan streams exactly the files that a simple
      path selects: on every graph, link cycles included, where no two simple paths to a
      directory decide differently about one of its entries. */
  lemma ScanIsExact(w: World, root: Id, initial: seq<Rule>, f: Found)
    requires Agreeing(w, root, initial) && w.limits == UNLIMITED
    ensures f in Scan(w, root, initial).streamed <==> Selected(w, root, initial, f)
  {
    hide Walk, At, StreamsAt, Closed, Sound, Reached, Agreeing;
    ScanIsSound(w, root, initial);
    var r := Scan(w, root, initial);
    WalkExtends(w, root, initial, START);
    WalkComplete(w, root, initial, START);
    if Selected(w, root, initial, f) {
      var p: Place :| p.id == f.directory && Reached(w, root, initial, p) && StreamsAt(w, p, f.index);
      ReachedPath(w, root, initial, p, r);
      FirstRulesAgree(w, root, initial, p, f.index, r);
      ScanIsExactUnderFirstRules(w, root, initial, f);
    }
  }

  lemma ReachedPath(w: World, root: Id, initial: seq<Rule>, p: Place, r: Run)
    requires Agreeing(w, root, initial) && Sound(w, root, initial, r)
    requires root in r.entered && forall d :: d in r.entered ==> Closed(w, r, d)
    requires Reached(w, root, initial, p)
    ensures p.id in r.entered
  {
    hide At, Closed, Sound, Agreeing, IsSimple;
    var path :| At(w, root, initial, path) == Some(p) && IsSimple(w, root, path);
    ReachedIsEntered(w, root, initial, path, r);
  }

  lemma StreamsAtMeans(w: World, p: Place, i: nat)
    ensures StreamsAt(w, p, i) ==> i < |Entries(w, p.id)| && Streams(w.options, p.rules, Entries(w, p.id)[i])
  {}
}
