/** What the scan's options mean for its results, condition by condition, and how far a
    stopped or refused scan gets. */
module ScanFilters {
  import opened Optional
  import opened Globbing
  import opened GitIgnore
  import opened Scanning
  import opened ScanPlaces
  import opened ScanRuns
  import opened ScanSoundness
  import opened ScanExactness

  // ---- Files -----------------------------------------------------------------------------

  ghost predicate NoneIgnores(o: Options, rules: seq<Rule>, e: Entry, isDirectory: bool) {
    o.respectGitignore ==> !Ignored(rules, e.relative, isDirectory)
  }

  ghost predicate InsideNone(path: string, directories: seq<string>) {
    forall d :: d in directories ==> !SameOrInside(path, d)
  }

  ghost predicate InsideSome(path: string, directories: seq<string>) {
    exists d :: d in directories && SameOrInside(path, d)
  }

  ghost predicate SomeGlob(globs: seq<string>, path: string) { exists g :: g in globs && Glob(g, path) }

  /** An extension is allowed with or without its dot. */
  predicate ListsExtension(allowed: seq<string>, extension: string) {
    ("." + extension in allowed) || (extension in allowed && (extension == "" || extension[0] != '.'))
  }

  lemma InsideAnyMeans(path: string, directories: seq<string>)
    ensures InsideAny(path, directories) <==> InsideSome(path, directories)
    ensures !InsideAny(path, directories) <==> InsideNone(path, directories)
  {
    hide SameOrInside;
    if i :| 0 <= i < |directories| && SameOrInside(path, directories[i]) {
      assert directories[i] in directories;
    }
  }

  lemma AnyGlobMeans(globs: seq<string>, path: string)
    ensures AnyGlob(globs, path) <==> SomeGlob(globs, path)
  {
    hide Glob;
    if i :| 0 <= i < |globs| && Glob(globs[i], path) { assert globs[i] in globs; }
  }

  lemma AllowedMeans(extension: string, allowed: seq<string>)
    ensures AllowedExtension(extension, allowed) <==> allowed == [] || ListsExtension(allowed, extension)
  {
    if i :| 0 <= i < |allowed| && WithoutDot(allowed[i]) == extension {
      assert allowed[i] in allowed;
      if allowed[i] != extension { assert allowed[i] == "." + extension; }
    }
    if "." + extension in allowed {
      var i :| 0 <= i < |allowed| && allowed[i] == "." + extension;
      assert WithoutDot(allowed[i]) == extension;
    }
    if extension in allowed && (extension == "" || extension[0] != '.') {
      var i :| 0 <= i < |allowed| && allowed[i] == extension;
      assert WithoutDot(allowed[i]) == extension;
    }
  }

  /** Unless it is stopped or refused, the scan streams an entry of a directory it entered
      if and only if it is a regular file whose size is known and within the limit, that no
      rule in force ignores, that is not hidden or may be, that lies in no excluded
      directory, in an included one and under an included pattern if there are any, under
      no excluded pattern, and has a listed extension if there are any. */
  lemma FilesPassExactlyWhen(w: World, root: Id, initial: seq<Rule>, f: Found)
    requires w.limits == UNLIMITED
    requires f.directory in Scan(w, root, initial).entered && f.index < |Entries(w, f.directory)|
    ensures var r, e, o := Scan(w, root, initial), Entries(w, f.directory)[f.index], w.options;
      f in r.streamed <==>
        && e.relative.Some? && e.kind.RegularFile? && e.kind.statusKnown
        && e.kind.size.Some? && e.kind.size.value <= o.maximumFileSize
        && NoneIgnores(o, r.entered[f.directory], e, false)
        && (o.includeHidden || e.name == "" || e.name[0] != '.')
        && InsideNone(e.relative.value, o.excludedDirectories)
        && (o.includedDirectories != [] ==> InsideSome(e.relative.value, o.includedDirectories))
        && (o.includedGlobs != [] ==> SomeGlob(o.includedGlobs, e.relative.value))
        && !SomeGlob(o.excludedGlobs, e.relative.value)
        && (o.extensions != [] ==> ListsExtension(o.extensions, e.extension))
  {
    hide Scan, InsideAny, InsideSome, InsideNone, AnyGlob, SomeGlob, AllowedExtension, ListsExtension, Ignored;
    ScanIsExactUnderFirstRules(w, root, initial, f);
    var e, o := Entries(w, f.directory)[f.index], w.options;
    if e.relative.Some? {
      InsideAnyMeans(e.relative.value, o.excludedDirectories);
      InsideAnyMeans(e.relative.value, o.includedDirectories);
      AnyGlobMeans(o.includedGlobs, e.relative.value);
      AnyGlobMeans(o.excludedGlobs, e.relative.value);
    }
    AllowedMeans(e.extension, o.extensions);
  }

  // ---- Directories -------------------------------------------------------------------------

  /** What a subdirectory must meet to be entered from its parent. */
  ghost predicate MayBeEntered(o: Options, rules: seq<Rule>, e: Entry) {
    && e.relative.Some? && e.kind.Directory? && o.includeSubdirectories
    && (o.followSymlinks || !e.kind.isLink)
    && NoneIgnores(o, rules, e, true)
    && (o.includeHidden || e.name == "" || e.name[0] != '.')
    && InsideNone(e.relative.value, o.excludedDirectories)
  }

  lemma EntersMeans(o: Options, rules: seq<Rule>, e: Entry)
    ensures Enters(o, rules, e) <==> MayBeEntered(o, rules, e)
  {
    hide InsideAny, InsideNone, Ignored;
    if e.relative.Some? { InsideAnyMeans(e.relative.value, o.excludedDirectories); }
  }

  /** Entry `i` of directory `p` leads to `d` and may be entered under the rules there. */
  ghost predicate LeadsInto(w: World, r: Run, p: Id, i: nat, d: Id) {
    && p in r.entered && i < |Entries(w, p)| && MayBeEntered(w.options, r.entered[p], Entries(w, p)[i])
    && Entries(w, p)[i].kind.target == d
  }

  /** Unless it is stopped or refused, the scan enters its root and exactly the
      directories that an entry of another entered directory leads into. */
  lemma DirectoriesEnteredExactlyWhen(w: World, root: Id, initial: seq<Rule>, d: Id)
    requires w.limits == UNLIMITED
    ensures var r := Scan(w, root, initial);
      d in r.entered <==> d == root || exists p, i: nat :: LeadsInto(w, r, p, i, d)
  {
    hide Walk, At, StreamsAt, Closed, ReachedWithin, Enters, MayBeEntered, Sound;
    var r := Scan(w, root, initial);
    WalkExtends(w, root, initial, START);
    WalkComplete(w, root, initial, START);
    if p, i: nat :| LeadsInto(w, r, p, i, d) {
      EntersMeans(w.options, r.entered[p], Entries(w, p)[i]);
      ClosedHolds(w, r, Place(p, r.entered[p]), i);
    }
    if d in r.entered && d != root {
      WalkIsLed(w, root, root, initial, START);
    }
  }

  /** Every directory entered but the root was led into from an entered one. */
  ghost predicate Led(w: World, root: Id, s: Run) {
    forall d :: d in s.entered && d != root ==> exists p, i: nat :: LeadsInto(w, s, p, i, d)
  }

  lemma StillLed(w: World, s: Run, r: Run, d: Id)
    requires Extends(s, r) && exists p, i: nat :: LeadsInto(w, s, p, i, d)
    ensures exists p, i: nat :: LeadsInto(w, r, p, i, d)
  {
    hide MayBeEntered;
    var p, i: nat :| LeadsInto(w, s, p, i, d);
    assert LeadsInto(w, r, p, i, d);
  }

  lemma {:induction false} WalkIsLed(w: World, root: Id, id: Id, inherited: seq<Rule>, s: Run)
    requires Led(w, root, s) && (id == root || exists p, i: nat :: LeadsInto(w, s, p, i, id))
    ensures Led(w, root, Walk(w, id, inherited, s))
    decreases Unvisited(w, s.entered.Keys), 0, 0
  {
    hide Unvisited, RulesIn, WalkEntries, MayBeEntered, LeadsInto;
    if id !in s.entered {
      var rules := RulesIn(w, id, inherited);
      var inside := s.(entered := s.entered[id := rules]);
      forall d | d in inside.entered && d != root ensures exists p, i: nat :: LeadsInto(w, inside, p, i, d) {
        StillLed(w, s, inside, d);
      }
      if id in w.fs {
        FewerUnvisited(w, s.entered.Keys, inside.entered.Keys);
        EntriesAreLed(w, root, id, rules, 0, inside);
      }
    }
  }

  lemma {:induction false} EntriesAreLed(w: World, root: Id, id: Id, rules: seq<Rule>, i: nat, s: Run)
    requires Led(w, root, s) && i <= |Entries(w, id)| && id in s.entered && s.entered[id] == rules
    ensures Led(w, root, WalkEntries(w, id, rules, i, s))
    decreases Unvisited(w, s.entered.Keys), 1, |Entries(w, id)| - i
  {
    hide Unvisited, Visit, Walk, LeadsInto;
    if i < |Entries(w, id)| && !StopSeen(w, s.polls) {
      var polled := s.(polls := s.polls + 1);
      var next := Visit(w, id, rules, i, polled);
      SameLed(w, root, s, polled);
      VisitIsLed(w, root, id, rules, i, polled);
      VisitExtends(w, id, rules, i, polled);
      FewerUnvisited(w, s.entered.Keys, next.entered.Keys);
      if next.goOn {
        EntriesAreLed(w, root, id, rules, i + 1, next);
      }
    } else if i < |Entries(w, id)| {
      SameLed(w, root, s, WalkEntries(w, id, rules, i, s));
    }
  }

  lemma SameLed(w: World, root: Id, s: Run, r: Run)
    requires Led(w, root, s) && r.entered == s.entered
    ensures Led(w, root, r)
  {
    hide MayBeEntered;
    forall d | d in r.entered && d != root ensures exists p, i: nat :: LeadsInto(w, r, p, i, d) {
      var p, i: nat :| LeadsInto(w, s, p, i, d);
      assert LeadsInto(w, r, p, i, d);
    }
  }

  lemma {:induction false} VisitIsLed(w: World, root: Id, id: Id, rules: seq<Rule>, i: nat, s: Run)
    requires Led(w, root, s) && i < |Entries(w, id)| && id in s.entered && s.entered[id] == rules
    ensures Led(w, root, Visit(w, id, rules, i, s))
    decreases Unvisited(w, s.entered.Keys), 1, 0
  {
    hide Unvisited, Walk, Enters, MayBeEntered, Leaf, Led;
    var e := Entries(w, id)[i];
    if Enters(w.options, rules, e) {
      EntersMeans(w.options, rules, e);
      DirectoryHasTarget(w.options, rules, e);
      assert LeadsInto(w, s, id, i, e.kind.target);
      WalkIsLed(w, root, e.kind.target, rules, s);
    } else {
      SameLed(w, root, s, Leaf(w, id, rules, i, s));
    }
  }

  // ---- Stops and refusals --------------------------------------------------------------------

  /** Fewer files than polls have been streamed, and none after the stop. */
  ghost predicate Polled(w: World, s: Run) {
    |s.streamed| <= s.polls && (w.limits.stopAt.Some? ==> |s.streamed| <= w.limits.stopAt.value)
  }

  lemma {:induction false} WalkPolled(w: World, id: Id, inherited: seq<Rule>, s: Run)
    requires Polled(w, s)
    ensures Polled(w, Walk(w, id, inherited, s)) && s.polls <= Walk(w, id, inherited, s).polls
    decreases Unvisited(w, s.entered.Keys), 0, 0
  {
    hide Unvisited, RulesIn, WalkEntries;
    if id !in s.entered && id in w.fs {
      var rules := RulesIn(w, id, inherited);
      var inside := s.(entered := s.entered[id := rules]);
      FewerUnvisited(w, s.entered.Keys, inside.entered.Keys);
      EntriesPolled(w, id, rules, 0, inside);
    }
  }

  lemma {:induction false} EntriesPolled(w: World, id: Id, rules: seq<Rule>, i: nat, s: Run)
    requires Polled(w, s) && i <= |Entries(w, id)|
    ensures Polled(w, WalkEntries(w, id, rules, i, s)) && s.polls <= WalkEntries(w, id, rules, i, s).polls
    decreases Unvisited(w, s.entered.Keys), 1, |Entries(w, id)| - i
  {
    hide Unvisited, Visit, Walk;
    if i < |Entries(w, id)| && !StopSeen(w, s.polls) {
      var polled := s.(polls := s.polls + 1);
      var next := Visit(w, id, rules, i, polled);
      VisitPolled(w, id, rules, i, polled);
      FewerUnvisited(w, s.entered.Keys, next.entered.Keys);
      if next.goOn {
        EntriesPolled(w, id, rules, i + 1, next);
      }
    }
  }

  lemma {:induction false} VisitPolled(w: World, id: Id, rules: seq<Rule>, i: nat, s: Run)
    requires i < |Entries(w, id)| && |s.streamed| < s.polls
    requires w.limits.stopAt.Some? ==> |s.streamed| < w.limits.stopAt.value
    ensures Polled(w, Visit(w, id, rules, i, s)) && s.polls <= Visit(w, id, rules, i, s).polls
    decreases Unvisited(w, s.entered.Keys), 1, 0
  {
    hide Unvisited, Walk, Streams, Enters, CountsAsIgnored, CountsAsHidden;
    var e := Entries(w, id)[i];
    if Enters(w.options, rules, e) {
      DirectoryHasTarget(w.options, rules, e);
      WalkPolled(w, e.kind.target, rules, s);
    }
  }

  /** A stop is seen at once: no more files are streamed than entries were begun before it. */
  lemma StopIsHonoured(w: World, root: Id, initial: seq<Rule>)
    requires w.limits.stopAt.Some?
    ensures |Scan(w, root, initial).streamed| <= w.limits.stopAt.value
  {
    WalkPolled(w, root, initial, START);
  }

  /** The scan goes on exactly as long as no file has been refused. */
  ghost predicate RefusedLast(w: World, s: Run) {
    match w.limits.refuseAt
    case None => s.goOn
    case Some(k) => if s.goOn then |s.streamed| <= k else |s.streamed| == k + 1
  }

  lemma {:induction false} WalkRefused(w: World, id: Id, inherited: seq<Rule>, s: Run)
    requires RefusedLast(w, s) && s.goOn && w.limits.stopAt.None?
    ensures RefusedLast(w, Walk(w, id, inherited, s))
    decreases Unvisited(w, s.entered.Keys), 0, 0
  {
    hide Unvisited, RulesIn, WalkEntries;
    if id !in s.entered && id in w.fs {
      var rules := RulesIn(w, id, inherited);
      var inside := s.(entered := s.entered[id := rules]);
      FewerUnvisited(w, s.entered.Keys, inside.entered.Keys);
      EntriesRefused(w, id, rules, 0, inside);
    }
  }

  lemma {:induction false} EntriesRefused(w: World, id: Id, rules: seq<Rule>, i: nat, s: Run)
    requires RefusedLast(w, s) && s.goOn && w.limits.stopAt.None? && i <= |Entries(w, id)|
    ensures RefusedLast(w, WalkEntries(w, id, rules, i, s))
    decreases Unvisited(w, s.entered.Keys), 1, |Entries(w, id)| - i
  {
    hide Unvisited, Visit, Walk;
    if i < |Entries(w, id)| {
      var polled := s.(polls := s.polls + 1);
      var next := Visit(w, id, rules, i, polled);
      VisitRefused(w, id, rules, i, polled);
      FewerUnvisited(w, s.entered.Keys, next.entered.Keys);
      if next.goOn {
        EntriesRefused(w, id, rules, i + 1, next);
      }
    }
  }

  lemma {:induction false} VisitRefused(w: World, id: Id, rules: seq<Rule>, i: nat, s: Run)
    requires RefusedLast(w, s) && s.goOn && w.limits.stopAt.None? && i < |Entries(w, id)|
    ensures RefusedLast(w, Visit(w, id, rules, i, s))
    decreases Unvisited(w, s.entered.Keys), 1, 0
  {
    hide Unvisited, Walk, Streams, Enters, CountsAsIgnored, CountsAsHidden;
    var e := Entries(w, id)[i];
    if Enters(w.options, rules, e) {
      DirectoryHasTarget(w.options, rules, e);
      WalkRefused(w, e.kind.target, rules, s);
    }
  }

  /** A refusal ends the scan at once: the refused file is the last, and without a
      refusal all are streamed. */
  lemma RefusalEndsScan(w: World, root: Id, initial: seq<Rule>, k: nat)
    requires w.limits == Limits(None, Some(k))
    ensures var all := Scan(Unlimited(w), root, initial).streamed;
      Scan(w, root, initial).streamed == if |all| <= k then all else all[..k + 1]
  {
    hide Walk;
    WalkRefused(w, root, initial, START);
    WalkCutShort(w, root, initial, START);
  }
}
