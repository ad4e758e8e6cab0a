/** Only what should be found is streamed, and each file once, on any graph. */
module ScanSoundness {
  import opened Optional
  import opened GitIgnore
  import opened Scanning
  import opened ScanPlaces
  import opened ScanRuns

  // ---- Soundness: only what should be found -----------------------------------------------

  /** A simple path to the place leads only through known directories. */
  ghost predicate ReachedWithin(w: World, root: Id, initial: seq<Rule>, p: Place, known: set<Id>) {
    exists path :: At(w, root, initial, path) == Some(p) && IsSimple(w, root, path) && Within(w, root, path, known)
  }

  predicate Within(w: World, root: Id, path: seq<nat>, known: set<Id>) {
    forall i :: 0 <= i <= |path| ==> Trail(w.fs, root, path)[i] in known
  }

  /** Every directory was entered under rules that a simple path through entered
      directories gives it, and every streamed file passes there. */
  ghost predicate Sound(w: World, root: Id, initial: seq<Rule>, s: Run) {
    && (forall d :: d in s.entered ==> ReachedWithin(w, root, initial, Place(d, s.entered[d]), s.entered.Keys))
    && (forall k :: 0 <= k < |s.streamed| ==>
          && s.streamed[k].directory in s.entered
          && StreamsAt(w, Place(s.streamed[k].directory, s.entered[s.streamed[k].directory]), s.streamed[k].index))
  }

  lemma WithinMore(w: World, root: Id, initial: seq<Rule>, p: Place, known: set<Id>, more: set<Id>)
    requires known <= more && ReachedWithin(w, root, initial, p, known)
    ensures ReachedWithin(w, root, initial, p, more)
  {
    hide At, IsSimple, Trail;
    var path :| At(w, root, initial, path) == Some(p) && IsSimple(w, root, path) && Within(w, root, path, known);
    assert Within(w, root, path, more);
  }

  lemma WithinIsReached(w: World, root: Id, initial: seq<Rule>, p: Place, known: set<Id>)
    requires ReachedWithin(w, root, initial, p, known)
    ensures Reached(w, root, initial, p)
  {
    hide At, IsSimple, Within;
    var path :| At(w, root, initial, path) == Some(p) && IsSimple(w, root, path) && Within(w, root, path, known);
  }

  /** A new directory below a known one keeps the path simple. */
  lemma OneStepFurther(w: World, root: Id, initial: seq<Rule>, p: Place, i: nat, known: set<Id>)
    requires ReachedWithin(w, root, initial, p, known) && i < |Entries(w, p.id)|
    requires Enters(w.options, p.rules, Entries(w, p.id)[i])
    ensures Entries(w, p.id)[i].kind.Directory?
    ensures var target := Entries(w, p.id)[i].kind.target;
      target !in known ==> ReachedWithin(w, root, initial, Place(target, RulesIn(w, target, p.rules)), known + {target})
  {
    hide RulesIn, IgnoredBy, InsideAny;
    var path :| At(w, root, initial, path) == Some(p) && IsSimple(w, root, path) && Within(w, root, path, known);
    var target, further := Entries(w, p.id)[i].kind.target, path + [i];
    assert further[..|path|] == path;
    assert At(w, root, initial, further) == Below(w, p, i);
    TrailEndsAt(w, root, initial, path);
    if target !in known { StillSimple(w, root, path, i, target, known); }
  }

  lemma StillSimple(w: World, root: Id, path: seq<nat>, i: nat, target: Id, known: set<Id>)
    requires IsSimple(w, root, path) && Within(w, root, path, known) && target !in known
    requires Target(w.fs, Trail(w.fs, root, path)[|path|], i) == target
    ensures IsSimple(w, root, path + [i]) && Within(w, root, path + [i], known + {target})
  {
    hide Target;
    assert (path + [i])[..|path|] == path;
    assert Trail(w.fs, root, path + [i]) == Trail(w.fs, root, path) + [target];
  }

  lemma EnteredMore(w: World, root: Id, initial: seq<Rule>, s: Run, id: Id, rules: seq<Rule>)
    requires Sound(w, root, initial, s) && id !in s.entered
    requires ReachedWithin(w, root, initial, Place(id, rules), s.entered.Keys + {id})
    ensures Sound(w, root, initial, s.(entered := s.entered[id := rules]))
  {
    hide ReachedWithin, StreamsAt;
    var inside := s.(entered := s.entered[id := rules]);
    assert inside.entered.Keys == s.entered.Keys + {id};
    forall d | d in inside.entered
      ensures ReachedWithin(w, root, initial, Place(d, inside.entered[d]), inside.entered.Keys)
    {
      if d != id { WithinMore(w, root, initial, Place(d, s.entered[d]), s.entered.Keys, inside.entered.Keys); }
    }
  }

  lemma {:induction false} WalkSound(w: World, root: Id, initial: seq<Rule>, id: Id, inherited: seq<Rule>, s: Run)
    requires Sound(w, root, initial, s)
    requires id !in s.entered ==>
      ReachedWithin(w, root, initial, Place(id, RulesIn(w, id, inherited)), s.entered.Keys + {id})
    ensures Sound(w, root, initial, Walk(w, id, inherited, s))
    decreases Unvisited(w, s.entered.Keys), 0, 0
  {
    hide Unvisited, ReachedWithin, RulesIn, WalkEntries, StreamsAt, Sound;
    if id !in s.entered {
      var rules := RulesIn(w, id, inherited);
      var inside := s.(entered := s.entered[id := rules]);
      EnteredMore(w, root, initial, s, id, rules);
      if id in w.fs {
        FewerUnvisited(w, s.entered.Keys, inside.entered.Keys);
        EntriesSound(w, root, initial, id, rules, 0, inside);
      }
    }
  }

  lemma {:induction false} EntriesSound(w: World, root: Id, initial: seq<Rule>, id: Id, rules: seq<Rule>, i: nat,
      s: Run)
    requires Sound(w, root, initial, s) && i <= |Entries(w, id)|
    requires id in s.entered && s.entered[id] == rules
    ensures Sound(w, root, initial, WalkEntries(w, id, rules, i, s))
    decreases Unvisited(w, s.entered.Keys), 1, |Entries(w, id)| - i
  {
    hide Unvisited, ReachedWithin, RulesIn, StreamsAt, Visit, Walk;
    if i < |Entries(w, id)| && !StopSeen(w, s.polls) {
      var polled := s.(polls := s.polls + 1);
      var next := Visit(w, id, rules, i, polled);
      VisitSound(w, root, initial, id, rules, i, polled);
      VisitExtends(w, id, rules, i, polled);
      FewerUnvisited(w, s.entered.Keys, next.entered.Keys);
      if next.goOn {
        EntriesSound(w, root, initial, id, rules, i + 1, next);
      }
    }
  }

  lemma {:induction false} VisitSound(w: World, root: Id, initial: seq<Rule>, id: Id, rules: seq<Rule>, i: nat, s: Run)
    requires Sound(w, root, initial, s) && i < |Entries(w, id)|
    requires id in s.entered && s.entered[id] == rules
    ensures Sound(w, root, initial, Visit(w, id, rules, i, s))
    decreases Unvisited(w, s.entered.Keys), 1, 0
  {
    hide Unvisited, ReachedWithin, RulesIn, Walk, Streams, Enters, CountsAsIgnored, CountsAsHidden;
    var e := Entries(w, id)[i];
    if Enters(w.options, rules, e) {
      OneStepFurther(w, root, initial, Place(id, rules), i, s.entered.Keys);
      WalkSound(w, root, initial, e.kind.target, rules, s);
    }
  }

  // ---- Each file once ------------------------------------------------------------------------

  ghost predicate Once(s: Run) {
    && (forall k :: 0 <= k < |s.streamed| ==> s.streamed[k].directory in s.entered)
    && (forall k, l :: 0 <= k < l < |s.streamed| ==> s.streamed[k] != s.streamed[l])
  }

  /** What came after `s` lies in directories outside `known`. */
  ghost predicate NewOutside(s: Run, r: Run, known: set<Id>) {
    forall k :: |s.streamed| <= k < |r.streamed| ==> r.streamed[k].directory !in known
  }

  lemma {:induction false} WalkOnce(w: World, id: Id, inherited: seq<Rule>, s: Run)
    requires Once(s)
    ensures var r := Walk(w, id, inherited, s); Once(r) && NewOutside(s, r, s.entered.Keys)
    decreases Unvisited(w, s.entered.Keys), 0, 0
  {
    hide Unvisited, RulesIn, WalkEntries;
    if id !in s.entered && id in w.fs {
      var rules := RulesIn(w, id, inherited);
      var inside := s.(entered := s.entered[id := rules]);
      FewerUnvisited(w, s.entered.Keys, inside.entered.Keys);
      EntriesOnce(w, id, rules, 0, inside);
      var r := WalkEntries(w, id, rules, 0, inside);
      assert inside.entered.Keys - {id} == s.entered.Keys;
    }
  }

  lemma {:induction false} EntriesOnce(w: World, id: Id, rules: seq<Rule>, i: nat, s: Run)
    requires Once(s) && i <= |Entries(w, id)| && id in s.entered
    requires forall k :: 0 <= k < |s.streamed| && s.streamed[k].directory == id ==> s.streamed[k].index < i
    ensures var r := WalkEntries(w, id, rules, i, s); Once(r) && NewOutside(s, r, s.entered.Keys - {id})
    decreases Unvisited(w, s.entered.Keys), 1, |Entries(w, id)| - i
  {
    hide Unvisited, Visit, Walk;
    if i < |Entries(w, id)| && !StopSeen(w, s.polls) {
      var polled := s.(polls := s.polls + 1);
      var next := Visit(w, id, rules, i, polled);
      VisitOnce(w, id, rules, i, polled);
      VisitExtends(w, id, rules, i, polled);
      FewerUnvisited(w, s.entered.Keys, next.entered.Keys);
      if next.goOn {
        EntriesOnce(w, id, rules, i + 1, next);
        EntriesExtend(w, id, rules, i + 1, next);
      }
    }
  }

  lemma {:induction false} VisitOnce(w: World, id: Id, rules: seq<Rule>, i: nat, s: Run)
    requires Once(s) && i < |Entries(w, id)| && id in s.entered
    requires forall k :: 0 <= k < |s.streamed| && s.streamed[k].directory == id ==> s.streamed[k].index < i
    ensures var r := Visit(w, id, rules, i, s);
      && Once(r) && NewOutside(s, r, s.entered.Keys - {id})
      && forall k :: 0 <= k < |r.streamed| && r.streamed[k].directory == id ==> r.streamed[k].index < i + 1
    decreases Unvisited(w, s.entered.Keys), 1, 0
  {
    hide Unvisited, Walk, Streams, Enters, CountsAsIgnored, CountsAsHidden;
    var e := Entries(w, id)[i];
    if Enters(w.options, rules, e) {
      DirectoryHasTarget(w.options, rules, e);
      WalkOnce(w, e.kind.target, rules, s);
      WalkExtends(w, e.kind.target, rules, s);
    }
  }
}
