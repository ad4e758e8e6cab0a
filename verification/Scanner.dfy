/**
 The recursive file scanner: a depth-first walk over a directory graph (a tree,
 plus link cycles when links are followed) with a visited set, inherited ignore
 rules, directory pruning and per-file filters.

 The graph is an input.  An entry carries what the scanner asks the file system
 about it; Id stands for a canonical directory path, and a relative path is the
 canonical one, as std::filesystem::relative computes it (None: an error).
 */
module Scanning {
  import opened Optional
  import opened Globbing
  import opened GitIgnore

  type Id = nat

  datatype Kind = Directory(target: Id, isLink: bool) | RegularFile(size: Option<nat>, statusKnown: bool) | OtherKind

  datatype Entry = Entry(name: string, relative: Option<string>, extension: string, kind: Kind)

  /** Rules parsed from a directory's .gitignore, and its entries in sorted order. */
  datatype Listing = Listing(ignoreRules: seq<Rule>, entries: seq<Entry>)

  datatype Options = Options(
    respectGitignore: bool,
    includeHidden: bool,
    followSymlinks: bool,
    includeSubdirectories: bool,
    excludedDirectories: seq<string>,
    includedDirectories: seq<string>,
    extensions: seq<string>,
    includedGlobs: seq<string>,
    excludedGlobs: seq<string>,
    maximumFileSize: nat)

  /** The stop token answers true from poll `stopAt` on; the sink answers false
      to file number `refuseAt`, which ends the scan. */
  datatype Limits = Limits(stopAt: Option<nat>, refuseAt: Option<nat>)

  datatype World = World(fs: map<Id, Listing>, options: Options, limits: Limits)

  const UNLIMITED := Limits(None, None)

  function Entries(w: World, id: Id): seq<Entry> {
    if id in w.fs then w.fs[id].entries else []
  }

  // ---- Filters -------------------------------------------------------------------

  predicate IsHidden(e: Entry) { e.name != "" && e.name[0] == '.' }

  predicate InsideAny(path: string, directories: seq<string>) {
    exists i :: 0 <= i < |directories| && SameOrInside(path, directories[i])
  }

  predicate AnyGlob(globs: seq<string>, text: string) {
    exists i :: 0 <= i < |globs| && Glob(globs[i], text)
  }

  function WithoutDot(extension: string): string {
    if extension != "" && extension[0] == '.' then extension[1..] else extension
  }

  predicate AllowedExtension(extension: string, allowed: seq<string>) {
    allowed == [] || exists i :: 0 <= i < |allowed| && WithoutDot(allowed[i]) == extension
  }

  ghost predicate IgnoredBy(o: Options, rules: seq<Rule>, e: Entry, isDirectory: bool) {
    o.respectGitignore && Ignored(rules, e.relative, isDirectory)
  }

  /** What a subdirectory must meet before the excluded directories are looked at. */
  ghost predicate MayEnter(o: Options, rules: seq<Rule>, e: Entry) {
    && e.relative.Some? && e.kind.Directory?
    && o.includeSubdirectories
    && (e.kind.isLink ==> o.followSymlinks)
    && !IgnoredBy(o, rules, e, true)
    && (IsHidden(e) ==> o.includeHidden)
  }

  /** The scanner walks into the subdirectory. */
  ghost predicate Enters(o: Options, rules: seq<Rule>, e: Entry) {
    MayEnter(o, rules, e) && !InsideAny(e.relative.value, o.excludedDirectories)
  }

  ghost predicate CountsAsIgnored(o: Options, rules: seq<Rule>, e: Entry) {
    e.relative.Some? && !e.kind.Directory? && IgnoredBy(o, rules, e, false)
  }

  ghost predicate CountsAsHidden(o: Options, rules: seq<Rule>, e: Entry) {
    && e.relative.Some? && e.kind.RegularFile? && !IgnoredBy(o, rules, e, false)
    && IsHidden(e) && !o.includeHidden
  }

  predicate InScope(o: Options, relative: string) {
    && !InsideAny(relative, o.excludedDirectories)
    && (o.includedDirectories == [] || InsideAny(relative, o.includedDirectories))
    && (o.includedGlobs == [] || AnyGlob(o.includedGlobs, relative))
    && !AnyGlob(o.excludedGlobs, relative)
  }

  /** The file reaches the sink. */
  ghost predicate Streams(o: Options, rules: seq<Rule>, e: Entry) {
    && e.relative.Some? && e.kind.RegularFile?
    && !IgnoredBy(o, rules, e, false)
    && (IsHidden(e) ==> o.includeHidden)
    && InScope(o, e.relative.value)
    && AllowedExtension(e.extension, o.extensions)
    && e.kind.size.Some? && e.kind.size.value <= o.maximumFileSize
    && e.kind.statusKnown
  }

  // ---- The walk --------------------------------------------------------------------

  datatype Found = Found(directory: Id, index: nat)

  /** `entered` holds every directory expanded and the rules in force there. */
  datatype Run = Run(
    entered: map<Id, seq<Rule>>,
    streamed: seq<Found>,
    polls: nat,
    ignoredFiles: nat,
    hiddenFiles: nat,
    goOn: bool)

  const START := Run(map[], [], 0, 0, 0, true)

  function RulesIn(w: World, id: Id, inherited: seq<Rule>): seq<Rule> {
    if w.options.respectGitignore && id in w.fs then inherited + w.fs[id].ignoreRules else inherited
  }

  /** Identities not yet expanded: the measure of the walk. */
  function Unvisited(w: World, visited: set<Id>): nat { |w.fs.Keys - visited| }

  lemma FewerUnvisited(w: World, visited: set<Id>, more: set<Id>)
    requires visited <= more
    ensures Unvisited(w, more) <= Unvisited(w, visited)
    ensures (exists id :: id in w.fs && id !in visited && id in more) ==> Unvisited(w, more) < Unvisited(w, visited)
  {
    var before, after := w.fs.Keys - visited, w.fs.Keys - more;
    assert before == after + (before - after);
  }

  predicate StopSeen(w: World, polls: nat) { w.limits.stopAt.Some? && w.limits.stopAt.value <= polls }

  predicate Refuses(w: World, streamed: nat) { w.limits.refuseAt == Some(streamed) }

  /** Every entry but a directory to walk into. */
  ghost function Leaf(w: World, id: Id, rules: seq<Rule>, i: nat, s: Run): (r: Run)
    requires i < |Entries(w, id)|
    ensures r.entered == s.entered
  {
    var e := Entries(w, id)[i];
    if Streams(w.options, rules, e) then
      s.(streamed := s.streamed + [Found(id, i)], goOn := s.goOn && !Refuses(w, |s.streamed|))
    else if CountsAsIgnored(w.options, rules, e) then s.(ignoredFiles := s.ignoredFiles + 1)
    else if CountsAsHidden(w.options, rules, e) then s.(hiddenFiles := s.hiddenFiles + 1)
    else s
  }

  ghost function Walk(w: World, id: Id, inherited: seq<Rule>, s: Run): (r: Run)
    ensures s.entered.Keys <= r.entered.Keys
    decreases Unvisited(w, s.entered.Keys), 0, 0
  {
    if id in s.entered then s else
      var rules := RulesIn(w, id, inherited);
      var inside := s.(entered := s.entered[id := rules]);
      if id !in w.fs then inside else
        FewerUnvisited(w, s.entered.Keys, inside.entered.Keys);
        WalkEntries(w, id, rules, 0, inside)
  }

  ghost function WalkEntries(w: World, id: Id, rules: seq<Rule>, i: nat, s: Run): (r: Run)
    requires i <= |Entries(w, id)|
    ensures s.entered.Keys <= r.entered.Keys
    decreases Unvisited(w, s.entered.Keys), 1, |Entries(w, id)| - i
  {
    if i == |Entries(w, id)| then s
    else if StopSeen(w, s.polls) then s.(polls := s.polls + 1, goOn := false)
    else
      var next := Visit(w, id, rules, i, s.(polls := s.polls + 1));
      FewerUnvisited(w, s.entered.Keys, next.entered.Keys);
      if next.goOn then WalkEntries(w, id, rules, i + 1, next) else next
  }

  /** One entry. */
  ghost function Visit(w: World, id: Id, rules: seq<Rule>, i: nat, s: Run): (r: Run)
    requires i < |Entries(w, id)|
    ensures s.entered.Keys <= r.entered.Keys
    decreases Unvisited(w, s.entered.Keys), 1, 0
  {
    var e := Entries(w, id)[i];
    if Enters(w.options, rules, e) then Walk(w, e.kind.target, rules, s) else Leaf(w, id, rules, i, s)
  }

  ghost function Scan(w: World, root: Id, initial: seq<Rule>): Run { Walk(w, root, initial, START) }

  lemma DirectoryHasTarget(o: Options, rules: seq<Rule>, e: Entry)
    ensures Enters(o, rules, e) ==> e.kind.Directory? && !Streams(o, rules, e)
  {}

  // ---- The scanner -----------------------------------------------------------------------

  datatype Outcome = EnterDirectory | StreamFile | IgnoredFile | HiddenFile | Skipped

  /** The filter cascade for one entry, in the order of the program. */
  method Examine(o: Options, rules: seq<Rule>, e: Entry) returns (outcome: Outcome)
    ensures outcome.EnterDirectory? <==> Enters(o, rules, e)
    ensures outcome.StreamFile? <==> Streams(o, rules, e)
    ensures outcome.IgnoredFile? <==> CountsAsIgnored(o, rules, e)
    ensures outcome.HiddenFile? <==> CountsAsHidden(o, rules, e)
  {
    hide Ignored, InsideAny, AnyGlob;
    if e.relative.None? {
      return Skipped;
    }
    var relative := e.relative.value;
    var ignored := Ignores(rules, e.relative, e.kind.Directory?);
    if e.kind.Directory? {
      var enters := o.includeSubdirectories && (!e.kind.isLink || o.followSymlinks) && !(o.respectGitignore && ignored)
        && (!IsHidden(e) || o.includeHidden) && !InsideAny(relative, o.excludedDirectories);
      return if enters then EnterDirectory else Skipped;
    }
    if o.respectGitignore && ignored {
      return IgnoredFile;
    }
    if !e.kind.RegularFile? {
      return Skipped;
    }
    if IsHidden(e) && !o.includeHidden {
      return HiddenFile;
    }
    if InsideAny(relative, o.excludedDirectories) {
      return Skipped;
    }
    if o.includedDirectories != [] && !InsideAny(relative, o.includedDirectories) {
      return Skipped;
    }
    if !AllowedExtension(e.extension, o.extensions) {
      return Skipped;
    }
    var included := AnyGlob(o.includedGlobs, relative);
    if (o.includedGlobs != [] && !included) || AnyGlob(o.excludedGlobs, relative) {
      return Skipped;
    }
    if e.kind.size.None? || e.kind.size.value > o.maximumFileSize || !e.kind.statusKnown {
      return Skipped;
    }
    return StreamFile;
  }

  class RecursiveFileScanner {
    const world: World
    var visited: set<Id>
    var streamed: seq<Found>
    var polls: nat
    var ignoredFiles: nat
    var hiddenFiles: nat
    ghost var entered: map<Id, seq<Rule>>

    ghost predicate Valid()
      reads this
    {
      visited == entered.Keys
    }

    ghost function State(goOn: bool): Run
      reads this
    {
      Run(entered, streamed, polls, ignoredFiles, hiddenFiles, goOn)
    }

    constructor (world: World)
      ensures this.world == world && Valid() && State(true) == START
    {
      this.world := world;
      visited := {};
      streamed := [];
      polls, ignoredFiles, hiddenFiles := 0, 0, 0;
      entered := map[];
    }

    /** The recursive lambda of the program. */
    method ScanDirectory(id: Id, inherited: seq<Rule>) returns (goOn: bool)
      requires Valid()
      modifies this
      ensures Valid() && State(goOn) == Walk(world, id, inherited, old(State(true)))
      decreases Unvisited(world, visited), 0
    {
      hide Unvisited, Visit, Leaf, Enters, Streams, CountsAsIgnored, CountsAsHidden;
      if id in visited {
        return true;
      }
      visited := visited + {id};
      var rules := RulesIn(world, id, inherited);
      entered := entered[id := rules];
      ghost var inside := State(true);
      FewerUnvisited(world, old(visited), visited);
      var entries := Entries(world, id);
      assert State(true) == inside;
      for i := 0 to |entries|
        invariant Valid() && old(visited) + {id} <= visited
        invariant WalkEntries(world, id, rules, 0, inside) == WalkEntries(world, id, rules, i, State(true))
      {
        hide Walk;
        if world.limits.stopAt.Some? && world.limits.stopAt.value <= polls {
          polls := polls + 1;
          return false;
        }
        polls := polls + 1;
        if id in world.fs { FewerUnvisited(world, old(visited), visited); }
        goOn := VisitEntry(id, rules, i);
        if !goOn {
          return false;
        }
      }
      goOn := true;
    }

    /** One turn of the loop over the entries. */
    method VisitEntry(id: Id, rules: seq<Rule>, i: nat) returns (goOn: bool)
      requires Valid() && i < |Entries(world, id)|
      modifies this
      ensures Valid() && State(goOn) == Visit(world, id, rules, i, old(State(true)))
      decreases Unvisited(world, visited), 1
    {
      hide Unvisited, Walk, Enters, Streams, CountsAsIgnored, CountsAsHidden;
      var e := Entries(world, id)[i];
      DirectoryHasTarget(world.options, rules, e);
      var outcome := Examine(world.options, rules, e);
      goOn := true;
      match outcome
      case EnterDirectory =>
        goOn := ScanDirectory(e.kind.target, rules);
      case StreamFile =>
        goOn := world.limits.refuseAt != Some(|streamed|);
        streamed := streamed + [Found(id, i)];
      case IgnoredFile =>
        ignoredFiles := ignoredFiles + 1;
      case HiddenFile =>
        hiddenFiles := hiddenFiles + 1;
      case Skipped =>
    }
  }
}
