/** A followed link into an ignored part of the tree: the order of entries decides. */
module ScanLinks {
  import opened Optional
  import opened Globbing
  import opened GitIgnore
  import opened Scanning
  import opened ScanPlaces
  import opened ScanRuns
  import opened ScanPruning

  const RULE := Rule(Some("a"), "x", false, false, false, true)
  const FOLDER := Entry("a", Some("a"), "", Directory(1, false))
  const SUBFOLDER := Entry("s", Some("a/s"), "", Directory(2, false))
  const LINK := Entry("z", Some("a/s"), "", Directory(2, true))
  const FILE := NamedFile("x", "a/s/x")

  /** Folder `a`, whose .gitignore ignores `x`, holds `s`, which holds `x`; `z` links to `s`. */
  function LinkedWorld(linkFirst: bool): World {
    var fs := map[
      0 as Id := Listing([], if linkFirst then [LINK, FOLDER] else [FOLDER, LINK]),
      1 := Listing([RULE], [SUBFOLDER]),
      2 := Listing([], [FILE])];
    World(fs, PLAIN.(followSymlinks := true), UNLIMITED)
  }

  lemma NamesInFolder()
    ensures RelativeToBase("a/s", "a") == "s" && RelativeToBase("a/s/x", "a") == "s/x"
    ensures SameOrInside("a/s", "a") && SameOrInside("a/s/x", "a")
    ensures Basename("s") == "s" && Basename("s/x") == "x"
  {
    hide Basename, SameOrInside, RelativeToBase;
    assert "a" + "/" + "s" == "a/s" && "a" + "/" + "s/x" == "a/s/x" && "s" + "/" + "x" == "s/x";
    UnderBaseIsInside("a", "s");
    UnderBaseIsInside("a", "s/x");
    BasenameWithoutSlash("s");
    BasenameWithoutSlash("x");
    BasenameBelow("s", "x");
  }

  lemma NamesGlob()
    ensures !Glob("x", "s") && Glob("x", "x")
  {}

  lemma RuleOnSubfolder()
    ensures !Ignored([RULE], SUBFOLDER.relative, true) && Ignored([RULE], FILE.relative, false)
  {
    hide Glob, Components, Basename, SameOrInside, RelativeToBase;
    NamesInFolder();
    NamesGlob();
    assert RuleMatches(RULE, "a/s", true) == Some(false);
    assert RuleMatches(RULE, "a/s/x", false) == Some(true);
    assert Decides([RULE], 0, "a/s/x", false);
  }

  lemma NoRuleIgnores(path: Option<string>, isDirectory: bool)
    ensures !Ignored([], path, isDirectory)
  {}

  lemma RulesThere(linkFirst: bool, rules: seq<Rule>)
    ensures var w := LinkedWorld(linkFirst);
      RulesIn(w, 0, []) == [] && RulesIn(w, 1, []) == [RULE] && RulesIn(w, 2, rules) == rules
  {}

  lemma LinkFirst()
    ensures Found(2, 0) in Scan(LinkedWorld(true), 0, []).streamed
  {
    hide RULE, Enters, Streams, CountsAsIgnored, Unvisited, RulesIn;
    FilePasses();
    RulesThere(true, []);
    var w := LinkedWorld(true);
    var root := START.(entered := map[0 := []]);
    assert Walk(w, 0, [], START) == WalkEntries(w, 0, [], 0, root);
    var inside := root.(entered := root.entered[2 := []], polls := 1);
    assert Visit(w, 0, [], 0, root.(polls := 1)) == WalkEntries(w, 2, [], 0, inside);
    var next := inside.(polls := 2, streamed := [Found(2, 0)]);
    assert Visit(w, 2, [], 0, inside.(polls := 2)) == next;
    assert WalkEntries(w, 2, [], 0, inside) == next;
    EntriesExtend(w, 0, [], 1, next);
    assert Scan(w, 0, []).streamed[0] == Found(2, 0);
  }

  lemma FolderFirst()
    ensures Found(2, 0) !in Scan(LinkedWorld(false), 0, []).streamed
  {
    hide RULE, Enters, Streams, CountsAsIgnored, Unvisited, RulesIn;
    FilePasses();
    RulesThere(false, [RULE]);
    var w := LinkedWorld(false);
    var root := START.(entered := map[0 := []]);
    assert Walk(w, 0, [], START) == WalkEntries(w, 0, [], 0, root);
    var a := root.(entered := root.entered[1 := [RULE]], polls := 1);
    assert Visit(w, 0, [], 0, root.(polls := 1)) == WalkEntries(w, 1, [RULE], 0, a);
    var s := a.(entered := a.entered[2 := [RULE]], polls := 2);
    assert Visit(w, 1, [RULE], 0, a.(polls := 2)) == WalkEntries(w, 2, [RULE], 0, s);
    var next := s.(polls := 3, ignoredFiles := 1);
    assert WalkEntries(w, 2, [RULE], 0, s) == next;
    assert WalkEntries(w, 1, [RULE], 0, a) == next;
    assert Visit(w, 0, [], 1, next.(polls := 4)) == next.(polls := 4);
    assert WalkEntries(w, 0, [], 1, next) == next.(polls := 4);
  }

  /** When the same directory can be reached under different rules, the order of
      the entries decides which rules count: the file is streamed only if the
      link is visited first, although a path selects it in both worlds. */
  lemma LinkOrderDecides(linkFirst: bool)
    ensures Found(2, 0) in Scan(LinkedWorld(linkFirst), 0, []).streamed <==> linkFirst
    ensures Selected(LinkedWorld(linkFirst), 0, [], Found(2, 0))
    ensures !Agreeing(LinkedWorld(linkFirst), 0, [])
  {
    hide *;
    LinkFirst();
    FolderFirst();
    LinkSelects(linkFirst);
  }

  lemma FilePasses()
    ensures Streams(LinkedWorld(true).options, [], FILE) && Enters(LinkedWorld(true).options, [], LINK)
    ensures Enters(LinkedWorld(true).options, [], FOLDER) && Enters(LinkedWorld(true).options, [RULE], SUBFOLDER)
    ensures CountsAsIgnored(LinkedWorld(true).options, [RULE], FILE)
      && !Streams(LinkedWorld(true).options, [RULE], FILE)
    ensures forall rules :: !Enters(LinkedWorld(true).options, rules, FILE)
  {
    hide Ignored;
    RuleOnSubfolder();
    NoRuleIgnores(FOLDER.relative, true);
    NoRuleIgnores(LINK.relative, true);
    NoRuleIgnores(FILE.relative, false);
  }

  lemma LinkSelects(linkFirst: bool)
    ensures Selected(LinkedWorld(linkFirst), 0, [], Found(2, 0))
    ensures !Agreeing(LinkedWorld(linkFirst), 0, [])
  {
    hide Streams, Enters, RulesIn, IsSimple;
    FilePasses();
    RulesThere(linkFirst, []);
    RulesThere(linkFirst, [RULE]);
    var w := LinkedWorld(linkFirst);
    var link: nat, folder: nat := if linkFirst then 0 else 1, if linkFirst then 1 else 0;
    assert At(w, 0, [], []) == Some(Place(0, []));
    assert [link][..0] == [] && [folder][..0] == [] && [folder, 0][..1] == [folder];
    assert At(w, 0, [], [link]) == Some(Place(2, []));
    assert At(w, 0, [], [folder]) == Some(Place(1, [RULE]));
    assert At(w, 0, [], [folder, 0]) == Below(w, Place(1, [RULE]), 0);
    LinkTrails(linkFirst, link, folder);
    assert Reached(w, 0, [], Place(2, [])) && Reached(w, 0, [], Place(2, [RULE]));
    assert StreamsAt(w, Place(2, []), 0) && !StreamsAt(w, Place(2, [RULE]), 0);
    assert !AgreeAt(w, Place(2, []), Place(2, [RULE]), 0);
  }

  lemma LinkTrails(linkFirst: bool, link: nat, folder: nat)
    requires link == (if linkFirst then 0 else 1) && folder == 1 - link
    ensures IsSimple(LinkedWorld(linkFirst), 0, [link]) && IsSimple(LinkedWorld(linkFirst), 0, [folder, 0])
  {
    var fs := LinkedWorld(linkFirst).fs;
    assert [link][..0] == [] && [folder][..0] == [] && [folder, 0][..1] == [folder];
    assert Trail(fs, 0, []) == [0];
    assert Trail(fs, 0, [link]) == [0, 2];
    assert Trail(fs, 0, [folder]) == [0, 1];
    assert Trail(fs, 0, [folder, 0]) == [0, 1, 2];
  }
}
