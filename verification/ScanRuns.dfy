/** What every walk keeps, and what a stop or a refusal leaves. */
module ScanRuns {
  import opened Optional
  import opened GitIgnore
  import opened Scanning

  // ---- The walk only adds ------------------------------------------------------------

  /** Nothing entered or streamed is forgotten or changed. */
  ghost predicate Extends(s: Run, r: Run) {
    && (forall d :: d in s.entered ==> d in r.entered && r.entered[d] == s.entered[d])
    && |s.streamed| <= |r.streamed| && (forall k :: 0 <= k < |s.streamed| ==> r.streamed[k] == s.streamed[k])
  }

  lemma {:induction false} WalkExtends(w: World, id: Id, inherited: seq<Rule>, s: Run)
    ensures Extends(s, Walk(w, id, inherited, s))
    ensures w.limits == UNLIMITED && s.goOn ==> Walk(w, id, inherited, s).goOn
    decreases Unvisited(w, s.entered.Keys), 0, 0
  {
    hide Streams, Enters, CountsAsIgnored, CountsAsHidden, Unvisited;
    if id !in s.entered && id in w.fs {
      var rules := RulesIn(w, id, inherited);
      var inside := s.(entered := s.entered[id := rules]);
      FewerUnvisited(w, s.entered.Keys, inside.entered.Keys);
      EntriesExtend(w, id, rules, 0, inside);
    }
  }

  lemma {:induction false} EntriesExtend(w: World, id: Id, rules: seq<Rule>, i: nat, s: Run)
    requires i <= |Entries(w, id)|
    ensures Extends(s, WalkEntries(w, id, rules, i, s))
    ensures w.limits == UNLIMITED && s.goOn ==> WalkEntries(w, id, rules, i, s).goOn
    decreases Unvisited(w, s.entered.Keys), 1, |Entries(w, id)| - i
  {
    hide Streams, Enters, CountsAsIgnored, CountsAsHidden, Unvisited, Visit, Walk;
    if i < |Entries(w, id)| && !StopSeen(w, s.polls) {
      var polled := s.(polls := s.polls + 1);
      var next := Visit(w, id, rules, i, polled);
      VisitExtends(w, id, rules, i, polled);
      FewerUnvisited(w, s.entered.Keys, next.entered.Keys);
      if next.goOn {
        EntriesExtend(w, id, rules, i + 1, next);
      }
    }
  }

  lemma {:induction false} VisitExtends(w: World, id: Id, rules: seq<Rule>, i: nat, s: Run)
    requires i < |Entries(w, id)|
    ensures Extends(s, Visit(w, id, rules, i, s))
    ensures w.limits == UNLIMITED && s.goOn ==> Visit(w, id, rules, i, s).goOn
    decreases Unvisited(w, s.entered.Keys), 1, 0
  {
    hide Streams, Enters, CountsAsIgnored, CountsAsHidden, Unvisited, Walk;
    var e := Entries(w, id)[i];
    if Enters(w.options, rules, e) {
      DirectoryHasTarget(w.options, rules, e);
      WalkExtends(w, e.kind.target, rules, s);
    }
  }

  // ---- A stopped scan -----------------------------------------------------------------------------

  function Unlimited(w: World): World { w.(limits := UNLIMITED) }

  /** `r` is what the unlimited walk gives, or it ended early with a prefix of that. */
  ghost predicate CutShort(r: Run, full: Run) {
    if r.goOn then r == full else r.streamed <= full.streamed
  }

  lemma {:induction false} WalkCutShort(w: World, id: Id, inherited: seq<Rule>, s: Run)
    requires s.goOn
    ensures CutShort(Walk(w, id, inherited, s), Walk(Unlimited(w), id, inherited, s))
    decreases Unvisited(w, s.entered.Keys), 0, 0
  {
    hide Unvisited, WalkEntries;
    if id !in s.entered && id in w.fs {
      var rules := RulesIn(w, id, inherited);
      var inside := s.(entered := s.entered[id := rules]);
      FewerUnvisited(w, s.entered.Keys, inside.entered.Keys);
      EntriesCutShort(w, id, rules, 0, inside);
      assert RulesIn(Unlimited(w), id, inherited) == rules;
    }
  }

  lemma {:induction false} EntriesCutShort(w: World, id: Id, rules: seq<Rule>, i: nat, s: Run)
    requires s.goOn && i <= |Entries(w, id)|
    ensures CutShort(WalkEntries(w, id, rules, i, s), WalkEntries(Unlimited(w), id, rules, i, s))
    decreases Unvisited(w, s.entered.Keys), 1, |Entries(w, id)| - i
  {
    hide Unvisited, Visit, Walk;
    EntriesExtend(Unlimited(w), id, rules, i, s);
    if i < |Entries(w, id)| && !StopSeen(w, s.polls) {
      var polled := s.(polls := s.polls + 1);
      var next, fully := Visit(w, id, rules, i, polled), Visit(Unlimited(w), id, rules, i, polled);
      VisitCutShort(w, id, rules, i, polled);
      VisitExtends(Unlimited(w), id, rules, i, polled);
      FewerUnvisited(w, s.entered.Keys, next.entered.Keys);
      if next.goOn {
        EntriesCutShort(w, id, rules, i + 1, next);
      } else {
        EntriesExtend(Unlimited(w), id, rules, i + 1, fully);
      }
    }
  }

  lemma {:induction false} VisitCutShort(w: World, id: Id, rules: seq<Rule>, i: nat, s: Run)
    requires s.goOn && i < |Entries(w, id)|
    ensures CutShort(Visit(w, id, rules, i, s), Visit(Unlimited(w), id, rules, i, s))
    decreases Unvisited(w, s.entered.Keys), 1, 0
  {
    hide Unvisited, Walk, Streams, Enters, CountsAsIgnored, CountsAsHidden;
    var e := Entries(w, id)[i];
    if Enters(w.options, rules, e) {
      DirectoryHasTarget(w.options, rules, e);
      WalkCutShort(w, e.kind.target, rules, s);
    }
  }

  /** Stopping a scan, or refusing a file, leaves a prefix of the full scan. */
  lemma StoppedScanIsPrefix(w: World, root: Id, initial: seq<Rule>)
    ensures Scan(w, root, initial).streamed <= Scan(Unlimited(w), root, initial).streamed
  {
    WalkCutShort(w, root, initial, START);
  }
}
