/** The two counters of the scan: ignored and hidden files, each counted once. */
module ScanCounters {
  import opened Optional
  import opened GitIgnore
  import opened Scanning
  import opened ScanRuns

  datatype Counter = IgnoredFiles | HiddenFiles {
    function Of(s: Run): nat { if IgnoredFiles? then s.ignoredFiles else s.hiddenFiles }

    ghost predicate Counts(o: Options, rules: seq<Rule>, e: Entry) {
      if IgnoredFiles? then CountsAsIgnored(o, rules, e) else CountsAsHidden(o, rules, e)
    }
  }

  function AllEntries(w: World): set<Found> {
    set d, i | d in w.fs && 0 <= i < |w.fs[d].entries| :: Found(d, i)
  }

  ghost predicate Counted(w: World, c: Counter, s: Run, f: Found) {
    && f.directory in s.entered && f.index < |Entries(w, f.directory)|
    && c.Counts(w.options, s.entered[f.directory], Entries(w, f.directory)[f.index])
  }

  /** The entries to count in the directories that were entered between two states. */
  ghost function New(w: World, c: Counter, s: Run, r: Run): set<Found> {
    set f | f in AllEntries(w) && f.directory !in s.entered && Counted(w, c, r, f)
  }

  /** The entries to count in one directory, from number `i` on. */
  ghost function Tail(w: World, c: Counter, s: Run, id: Id, i: nat): set<Found> {
    set f | f in AllEntries(w) && f.directory == id && f.index >= i && Counted(w, c, s, f)
  }

  lemma NewAddsUp(w: World, c: Counter, s: Run, t: Run, r: Run)
    requires Extends(s, t) && Extends(t, r)
    ensures |New(w, c, s, r)| == |New(w, c, s, t)| + |New(w, c, t, r)|
  {
    hide AllEntries, Counter.Counts;
    var first, second := New(w, c, s, t), New(w, c, t, r);
    assert first !! second;
    assert New(w, c, s, r) == first + second;
  }

  lemma NothingNew(w: World, c: Counter, s: Run, r: Run)
    requires r.entered == s.entered
    ensures New(w, c, s, r) == {}
  {
    hide AllEntries, Counter.Counts;
  }

  lemma {:induction false} WalkCounts(w: World, c: Counter, id: Id, inherited: seq<Rule>, s: Run)
    requires Walk(w, id, inherited, s).goOn
    ensures var r := Walk(w, id, inherited, s); c.Of(r) == c.Of(s) + |New(w, c, s, r)|
    decreases Unvisited(w, s.entered.Keys), 0, 0
  {
    hide Unvisited, RulesIn, WalkEntries, New, Extends, Counter.Counts, AllEntries;
    if id in s.entered {
      NothingNew(w, c, s, s);
    } else {
      var rules := RulesIn(w, id, inherited);
      var inside := s.(entered := s.entered[id := rules]);
      if id in w.fs {
        FewerUnvisited(w, s.entered.Keys, inside.entered.Keys);
        EntriesCount(w, c, id, rules, 0, inside);
        EntriesExtend(w, id, rules, 0, inside);
        EnteredCounts(w, c, s, inside, WalkEntries(w, id, rules, 0, inside), id);
      } else {
        NoEntries(w, c, s, inside, id);
      }
    }
  }

  lemma EnteredCounts(w: World, c: Counter, s: Run, inside: Run, r: Run, id: Id)
    requires id !in s.entered && id in inside.entered && inside.entered == s.entered[id := inside.entered[id]]
    requires Extends(inside, r)
    ensures |New(w, c, s, r)| == |New(w, c, inside, r)| + |Tail(w, c, inside, id, 0)|
  {
    hide AllEntries, Counter.Counts;
    var others, own := New(w, c, inside, r), Tail(w, c, inside, id, 0);
    assert others !! own;
    assert New(w, c, s, r) == others + own;
  }

  lemma NoEntries(w: World, c: Counter, s: Run, inside: Run, id: Id)
    requires id !in w.fs && inside.entered.Keys == s.entered.Keys + {id}
    ensures New(w, c, s, inside) == {}
  {
    hide Counter.Counts;
  }

  lemma {:induction false} EntriesCount(w: World, c: Counter, id: Id, rules: seq<Rule>, i: nat, s: Run)
    requires i <= |Entries(w, id)| && id in s.entered && s.entered[id] == rules
    requires WalkEntries(w, id, rules, i, s).goOn
    ensures var r := WalkEntries(w, id, rules, i, s);
      c.Of(r) == c.Of(s) + |New(w, c, s, r)| + |Tail(w, c, s, id, i)|
    decreases Unvisited(w, s.entered.Keys), 1, |Entries(w, id)| - i
  {
    hide Unvisited, Visit, Walk, New, Tail, Extends, Counter.Counts, AllEntries;
    if i == |Entries(w, id)| {
      NothingNew(w, c, s, s);
      NoTail(w, c, s, id, i);
    } else {
      var polled := s.(polls := s.polls + 1);
      var next := Visit(w, id, rules, i, polled);
      VisitCounts(w, c, id, rules, i, polled);
      VisitExtends(w, id, rules, i, polled);
      FewerUnvisited(w, s.entered.Keys, next.entered.Keys);
      KeepsRules(polled, next, id);
      EntriesCount(w, c, id, rules, i + 1, next);
      EntriesExtend(w, id, rules, i + 1, next);
      var r := WalkEntries(w, id, rules, i + 1, next);
      NewAddsUp(w, c, polled, next, r);
      SameNew(w, c, s, polled, r);
      OneLess(w, c, s, next, id, i);
    }
  }

  lemma KeepsRules(s: Run, r: Run, id: Id)
    requires Extends(s, r) && id in s.entered
    ensures id in r.entered && r.entered[id] == s.entered[id]
  {}

  lemma SameNew(w: World, c: Counter, s: Run, t: Run, r: Run)
    requires s.entered == t.entered
    ensures New(w, c, s, r) == New(w, c, t, r)
  {
    hide AllEntries, Counter.Counts;
  }

  lemma NoTail(w: World, c: Counter, s: Run, id: Id, i: nat)
    requires i >= |Entries(w, id)|
    ensures Tail(w, c, s, id, i) == {}
  {
    hide Counter.Counts;
  }

  lemma OneLess(w: World, c: Counter, s: Run, next: Run, id: Id, i: nat)
    requires i < |Entries(w, id)| && id in s.entered && id in next.entered && next.entered[id] == s.entered[id]
    ensures |Tail(w, c, s, id, i)| == |Tail(w, c, next, id, i + 1)|
      + if c.Counts(w.options, s.entered[id], Entries(w, id)[i]) then 1 else 0
  {
    hide Counter.Counts;
    var more, fewer, f := Tail(w, c, s, id, i), Tail(w, c, next, id, i + 1), Found(id, i);
    assert f in AllEntries(w);
    assert more == if Counted(w, c, s, f) then fewer + {f} else fewer;
  }

  lemma {:induction false} VisitCounts(w: World, c: Counter, id: Id, rules: seq<Rule>, i: nat, s: Run)
    requires i < |Entries(w, id)| && Visit(w, id, rules, i, s).goOn
    ensures var r := Visit(w, id, rules, i, s);
      c.Of(r) == c.Of(s) + |New(w, c, s, r)| + if c.Counts(w.options, rules, Entries(w, id)[i]) then 1 else 0
    decreases Unvisited(w, s.entered.Keys), 1, 0
  {
    hide Unvisited, Walk, New, IgnoredBy, InsideAny, InScope, AllowedExtension, AllEntries;
    var e := Entries(w, id)[i];
    if Enters(w.options, rules, e) {
      WalkCounts(w, c, e.kind.target, rules, s);
    } else {
      NothingNew(w, c, s, Leaf(w, id, rules, i, s));
    }
  }

  /** The entries of entered directories that the rules in force there ignore, other than
      directories; and the regular files that no rule ignores and that are left out
      because they are hidden. */
  ghost function ToCount(w: World, c: Counter, r: Run): set<Found> {
    set f | f in AllEntries(w) && f.directory in r.entered && (
      var e, o := w.fs[f.directory].entries[f.index], w.options;
      var ignored := o.respectGitignore && Ignored(r.entered[f.directory], e.relative, false);
      && e.relative.Some?
      && (if c.IgnoredFiles? then ignored && !e.kind.Directory?
          else !ignored && e.kind.RegularFile? && !o.includeHidden && e.name != "" && e.name[0] == '.'))
  }

  /** Unless it is stopped or refused, the scan counts each of these once, whatever the
      graph is. */
  lemma CountersAreExact(w: World, root: Id, initial: seq<Rule>)
    requires w.limits == UNLIMITED
    ensures var r := Scan(w, root, initial);
      r.ignoredFiles == |ToCount(w, IgnoredFiles, r)| && r.hiddenFiles == |ToCount(w, HiddenFiles, r)|
  {
    hide Walk, New;
    var r := Scan(w, root, initial);
    WalkExtends(w, root, initial, START);
    WalkCounts(w, IgnoredFiles, root, initial, START);
    WalkCounts(w, HiddenFiles, root, initial, START);
    AllAreNew(w, IgnoredFiles, r);
    AllAreNew(w, HiddenFiles, r);
  }

  lemma AllAreNew(w: World, c: Counter, r: Run)
    ensures New(w, c, START, r) == ToCount(w, c, r)
  {
    hide Ignored;
    forall f | f in AllEntries(w) ensures f in New(w, c, START, r) <==> f in ToCount(w, c, r) {}
  }
}
