/**
 Ignore rules: which rule matches a path, and the ordered verdict over all rules.
 Paths are normalized generic paths, relative to the scanned root; None stands
 for an absolute path, whose normalization throws.
 */
module GitIgnore {
  import opened Optional
  import opened Globbing

  datatype Rule = Rule(
    base: Option<string>,
    pattern: string,
    negated: bool,
    directoryOnly: bool,
    anchored: bool,
    basenameOnly: bool)

  // ---- Paths ---------------------------------------------------------------------

  /** normalizedPathIsSameOrInside: character comparison plus a separator. */
  predicate SameOrInside(path: string, base: string) {
    base == "" || path == base || (|path| > |base| && base <= path && path[|base|] == '/')
  }

  /** Being inside means being the base with a separator and a tail after it. */
  lemma InsideIsExtension(path: string, base: string)
    ensures SameOrInside(path, base) <==>
      base == "" || path == base || exists tail: string :: path == base + "/" + tail
  {
    if |path| > |base| && base <= path && path[|base|] == '/' {
      assert path == base + "/" + path[|base| + 1..];
    }
    if tail: string :| path == base + "/" + tail {
      assert path[..|base|] == base;
    }
  }

  lemma InsideIsTransitive(a: string, b: string, c: string)
    requires SameOrInside(a, b) && SameOrInside(b, c)
    ensures SameOrInside(a, c)
  {
    if c != "" && a != b && b != c {
      assert a[..|b|] == b && b[..|c|] == c;
      assert a[..|c|] == c && a[|c|] == b[|c|];
    }
  }

  /** A base written with a trailing separator contains no normalized path. */
  lemma TrailingSeparatorContainsNothing(path: string, base: string)
    requires base != "" && base[|base| - 1] == '/'
    requires path != "" && path[|path| - 1] != '/'
    requires forall i :: 0 <= i < |path| - 1 && path[i] == '/' ==> path[i + 1] != '/'
    ensures !SameOrInside(path, base)
  {
    if |path| > |base| && base <= path {
      assert path[|base| - 1] == '/';
    }
  }

  function RelativeToBase(path: string, base: string): string {
    if base == "" then path
    else if path == base || !SameOrInside(path, base) then ""
    else path[|base| + 1..]
  }

  /** Index of the first separator, or the length. */
  function FirstSlash(s: string): (i: nat)
    ensures i <= |s|
  {
    if s == "" || s[0] == '/' then 0 else 1 + FirstSlash(s[1..])
  }

  lemma {:induction false} FirstSlashIsFirst(s: string)
    ensures '/' !in s[..FirstSlash(s)] && (FirstSlash(s) < |s| ==> s[FirstSlash(s)] == '/')
  {
    if s != "" && s[0] != '/' {
      FirstSlashIsFirst(s[1..]);
      assert s[..FirstSlash(s)] == [s[0]] + s[1..][..FirstSlash(s) - 1];
    }
  }

  /** The path components, from the left; a trailing separator adds none. */
  function Components(s: string): seq<string> {
    if s == "" then []
    else if FirstSlash(s) == |s| then [s]
    else [s[..FirstSlash(s)]] + Components(s[FirstSlash(s) + 1..])
  }

  /** What follows the last separator. */
  function Basename(s: string): string {
    if s == "" then "" else if s[|s| - 1] == '/' then "" else Basename(s[..|s| - 1]) + [s[|s| - 1]]
  }

  // ---- One rule --------------------------------------------------------------------

  predicate AnyMatches(pattern: string, names: seq<string>) {
    exists i :: 0 <= i < |names| && Glob(pattern, names[i])
  }

  predicate BasenameMatches(rule: Rule, relative: string, isDirectory: bool) {
    if rule.directoryOnly && !isDirectory then AnyMatches(rule.pattern, Components(relative))
    else Glob(rule.pattern, Basename(relative))
  }

  predicate PathMatches(rule: Rule, relative: string, isDirectory: bool) {
    if rule.directoryOnly then
      rule.pattern + "/" <= relative || (isDirectory && relative == rule.pattern)
    else if rule.anchored then Glob(rule.pattern, relative)
    else Glob(rule.pattern, relative) || EndsWith(relative, "/" + rule.pattern)
  }

  predicate EndsWith(s: string, suffix: string) {
    |suffix| <= |s| && s[|s| - |suffix|..] == suffix
  }

  predicate RelativeMatches(rule: Rule, relative: string, isDirectory: bool) {
    relative != ""
    && (if rule.basenameOnly then BasenameMatches(rule, relative, isDirectory)
        else PathMatches(rule, relative, isDirectory))
  }

  /** None: the rule's base is absolute and the comparison throws. */
  function RuleMatches(rule: Rule, path: string, isDirectory: bool): Option<bool> {
    match rule.base
    case None => None
    case Some(base) =>
      Some(SameOrInside(path, base) && RelativeMatches(rule, RelativeToBase(path, base), isDirectory))
  }

  // ---- All rules ---------------------------------------------------------------------

  /** Rule `i` ignores the path and no later rule matches it. */
  ghost predicate Decides(rules: seq<Rule>, i: nat, path: string, isDirectory: bool)
    requires i < |rules|
  {
    && RuleMatches(rules[i], path, isDirectory) == Some(true) && !rules[i].negated
    && forall j :: i < j < |rules| ==> RuleMatches(rules[j], path, isDirectory) == Some(false)
  }

  /** The last matching rule decides; a rule or path that cannot be normalized
      makes the verdict "not ignored". */
  ghost predicate Ignored(rules: seq<Rule>, path: Option<string>, isDirectory: bool) {
    && path.Some?
    && (forall i :: 0 <= i < |rules| ==> rules[i].base.Some?)
    && exists i :: 0 <= i < |rules| && Decides(rules, i, path.value, isDirectory)
  }

  lemma AnyMatchesFirst(pattern: string, first: string, rest: seq<string>)
    ensures AnyMatches(pattern, [first] + rest) <==> Glob(pattern, first) || AnyMatches(pattern, rest)
  {
    hide Glob;
    var names := [first] + rest;
    assert names[0] == first;
    forall i | 0 <= i < |rest| ensures names[i + 1] == rest[i] {}
  }

  /** Some component matches: the first, or one after it. */
  lemma FirstComponent(pattern: string, s: string)
    requires s != ""
    ensures FirstSlash(s) <= |s|
    ensures AnyMatches(pattern, Components(s)) <==>
      || Glob(pattern, s[..FirstSlash(s)])
      || (FirstSlash(s) < |s| && AnyMatches(pattern, Components(s[FirstSlash(s) + 1..])))
  {
    hide Glob, AnyMatches, FirstSlash;
    NoneMatches(pattern);
    if FirstSlash(s) == |s| {
      assert s[..|s|] == s;
      AnyMatchesFirst(pattern, s, []);
      assert [s] + [] == [s];
    } else {
      AnyMatchesFirst(pattern, s[..FirstSlash(s)], Components(s[FirstSlash(s) + 1..]));
    }
  }

  lemma NoneMatches(pattern: string)
    ensures Components("") == [] && !AnyMatches(pattern, [])
  {}

  /** The loop over the components of a path. */
  method AnyComponentMatches(pattern: string, relative: string) returns (matches: bool)
    ensures matches == AnyMatches(pattern, Components(relative))
  {
    hide *;
    var searchStart := 0;
    assert relative[0..] == relative;
    while searchStart < |relative|
      invariant searchStart <= |relative|
      invariant AnyMatches(pattern, Components(relative)) == AnyMatches(pattern, Components(relative[searchStart..]))
    {
      ghost var rest := relative[searchStart..];
      var length := FirstSlash(relative[searchStart..]);
      FirstComponent(pattern, rest);
      assert rest[..length] == relative[searchStart..searchStart + length];
      assert length < |rest| ==> rest[length + 1..] == relative[searchStart + length + 1..];
      var separator := searchStart + length;
      matches := GlobMatches(pattern, relative[searchStart..separator]);
      if matches || separator == |relative| {
        return;
      }
      searchStart := separator + 1;
    }
    assert relative[searchStart..] == "";
    NoneMatches(pattern);
    matches := false;
  }

  method BasenameRuleMatches(rule: Rule, relative: string, isDirectory: bool) returns (matches: bool)
    ensures matches == BasenameMatches(rule, relative, isDirectory)
  {
    if rule.directoryOnly && !isDirectory {
      matches := AnyComponentMatches(rule.pattern, relative);
    } else {
      matches := GlobMatches(rule.pattern, Basename(relative));
    }
  }

  method RuleMatchesPath(rule: Rule, path: string, isDirectory: bool) returns (result: Option<bool>)
    ensures result == RuleMatches(rule, path, isDirectory)
  {
    if rule.base.None? {
      return None;
    }
    var base := rule.base.value;
    if !SameOrInside(path, base) {
      return Some(false);
    }
    var relative := RelativeToBase(path, base);
    if relative == "" {
      return Some(false);
    }
    if rule.basenameOnly {
      var matches := BasenameRuleMatches(rule, relative, isDirectory);
      return Some(matches);
    }
    return Some(PathMatches(rule, relative, isDirectory));
  }

  method Ignores(rules: seq<Rule>, path: Option<string>, isDirectory: bool) returns (ignores: bool)
    ensures ignores == Ignored(rules, path, isDirectory)
  {
    var verdict: Option<bool> := None;
    for i := 0 to |rules|
      invariant i > 0 ==> path.Some?
      invariant forall j :: 0 <= j < i ==> rules[j].base.Some?
      invariant verdict == Some(true) ==> Ignored(rules[..i], path, isDirectory)
      invariant verdict != Some(true) ==> !Ignored(rules[..i], path, isDirectory)
    {
      if path.None? {
        return false;
      }
      var matches := RuleMatchesPath(rules[i], path.value, isDirectory);
      if matches.None? {
        return false;
      }
      AfterRule(rules, i, path.value, isDirectory);
      if matches.value {
        verdict := Some(!rules[i].negated);
      }
    }
    assert rules[..|rules|] == rules;
    ignores := verdict == Some(true);
  }

  /** One more rule: it decides if it matches and changes nothing otherwise. */
  lemma AfterRule(rules: seq<Rule>, i: nat, path: string, isDirectory: bool)
    requires i < |rules| && forall j :: 0 <= j <= i ==> rules[j].base.Some?
    ensures Ignored(rules[..i + 1], Some(path), isDirectory) <==>
      if RuleMatches(rules[i], path, isDirectory) == Some(true) then !rules[i].negated
      else Ignored(rules[..i], Some(path), isDirectory)
  {
    hide RuleMatches;
    var before, after := rules[..i], rules[..i + 1];
    if RuleMatches(rules[i], path, isDirectory) == Some(true) {
      assert after[i] == rules[i];
      if !rules[i].negated { assert Decides(after, i, path, isDirectory); }
      assert forall k :: 0 <= k < i ==> !Decides(after, k, path, isDirectory);
    } else {
      RuleMatchesSome(rules[i], path, isDirectory);
      assert after[i] == rules[i];
      forall k | 0 <= k < i ensures Decides(before, k, path, isDirectory) <==> Decides(after, k, path, isDirectory) {
        DecidesBefore(before, rules[i], k, path, isDirectory);
        assert after == before + [rules[i]];
      }
    }
  }

  /** Appending a rule that does not match keeps who decides. */
  lemma DecidesBefore(rules: seq<Rule>, last: Rule, k: nat, path: string, isDirectory: bool)
    requires k < |rules| && RuleMatches(last, path, isDirectory) == Some(false)
    ensures Decides(rules, k, path, isDirectory) <==> Decides(rules + [last], k, path, isDirectory)
  {
    hide RuleMatches;
    var after := rules + [last];
    if Decides(after, k, path, isDirectory) {
      forall j | k < j < |rules| ensures RuleMatches(rules[j], path, isDirectory) == Some(false) {
        assert after[j] == rules[j];
      }
    }
  }

  lemma RuleMatchesSome(rule: Rule, path: string, isDirectory: bool)
    ensures rule.base.None? ==> RuleMatches(rule, path, isDirectory) == None
    ensures rule.base.Some? ==>
      RuleMatches(rule, path, isDirectory) == Some(true) || RuleMatches(rule, path, isDirectory) == Some(false)
  {}

  // ---- Directory rules cover what is below the directory ------------------------------------

  lemma {:induction false} ComponentsOfPrefix(s: string, tail: string)
    requires s != ""
    ensures forall c :: c in Components(s) ==> c in Components(s + "/" + tail)
  {
    var whole := s + "/" + tail;
    var i := FirstSlash(s);
    FirstSlashOfPrefix(s, "/" + tail);
    assert s + ("/" + tail) == whole;
    if i == |s| {
      assert whole[..i] == s;
    } else {
      assert whole[..i] == s[..i];
      if s[i + 1..] != "" {
        ComponentsOfPrefix(s[i + 1..], tail);
        assert whole[i + 1..] == s[i + 1..] + "/" + tail;
      }
    }
  }

  lemma {:induction false} FirstSlashOfPrefix(s: string, rest: string)
    requires rest != "" && rest[0] == '/'
    ensures FirstSlash(s + rest) == FirstSlash(s)
  {
    if s != "" {
      assert (s + rest)[1..] == s[1..] + rest;
      FirstSlashOfPrefix(s[1..], rest);
    } else {
      assert s + rest == rest;
    }
  }

  /** The basename of a path that does not end with a separator is a component. */
  lemma {:induction false} BasenameIsComponent(s: string)
    requires s != "" && s[|s| - 1] != '/'
    ensures Basename(s) in Components(s)
  {
    var i := FirstSlash(s);
    FirstSlashIsFirst(s);
    if i == |s| {
      assert s[..i] == s;
      BasenameWithoutSlash(s);
    } else {
      BasenameOfTail(s, i + 1);
      BasenameIsComponent(s[i + 1..]);
    }
  }

  lemma {:induction false} BasenameWithoutSlash(s: string)
    requires '/' !in s
    ensures Basename(s) == s
  {
    if s != "" {
      BasenameWithoutSlash(s[..|s| - 1]);
      assert s == s[..|s| - 1] + [s[|s| - 1]];
    }
  }

  lemma {:induction false} BasenameOfTail(s: string, n: nat)
    requires 0 < n <= |s| && s[n - 1] == '/'
    ensures Basename(s[n..]) == Basename(s)
  {
    if n < |s| {
      BasenameOfTail(s[..|s| - 1], n);
      assert s[n..][..|s| - n - 1] == s[..|s| - 1][n..];
    } else {
      assert s[n..] == "";
    }
  }

  /** A directory-only rule that matches a directory also matches every file at
      any depth below it, so pruning the directory agrees with the rule. */
  lemma DirectoryRuleCoversContents(rule: Rule, directory: string, tail: string)
    requires rule.directoryOnly && rule.base.Some?
    requires directory != "" && directory[|directory| - 1] != '/'
    requires RuleMatches(rule, directory, true) == Some(true)
    ensures RuleMatches(rule, directory + "/" + tail, false) == Some(true)
  {
    var base, below := rule.base.value, directory + "/" + tail;
    var relative := RelativeToBase(directory, base);
    if base != "" { assert below[..|base|] == directory[..|base|]; }
    assert SameOrInside(below, base);
    assert RelativeToBase(below, base) == relative + "/" + tail;
    assert relative[|relative| - 1] == directory[|directory| - 1];
    if rule.basenameOnly {
      BasenameIsComponent(relative);
      ComponentsOfPrefix(relative, tail);
      var i :| 0 <= i < |Components(relative + "/" + tail)|
        && Components(relative + "/" + tail)[i] == Basename(relative);
    } else if relative == rule.pattern {
      assert rule.pattern + "/" <= relative + "/" + tail;
    }
  }

  // ---- What a directory-only rule does to a file ---------------------------------------------

  /** A relative path as normalization leaves it: no empty component. */
  predicate IsNormalized(path: string) {
    && path != "" && path[0] != '/' && path[|path| - 1] != '/'
    && forall i :: 0 <= i < |path| - 1 ==> !(path[i] == '/' && path[i + 1] == '/')
  }

  /** The rule matches a directory that the path lies below. */
  ghost predicate AncestorMatches(rule: Rule, path: string) {
    exists d: string, tail: string :: IsBelow(path, d, tail) && RuleMatches(rule, d, true) == Some(true)
  }

  predicate IsBelow(path: string, d: string, tail: string) { path == d + "/" + tail }

  lemma PartsAreNormalized(d: string, tail: string)
    requires IsNormalized(d + "/" + tail)
    ensures IsNormalized(d) && IsNormalized(tail)
  {
    var path := d + "/" + tail;
    assert path[|d|] == '/';
    assert d != "" && tail != "";
    assert forall i :: 0 <= i < |d| ==> path[i] == d[i];
    assert forall i :: 0 <= i < |tail| ==> path[|d| + 1 + i] == tail[i];
    assert path[|d| - 1] == d[|d| - 1] && path[|d| + 1] == tail[0];
  }

  /** Below a directory the name is that of what is below. */
  lemma BasenameBelow(d: string, tail: string)
    ensures Basename(d + "/" + tail) == Basename(tail)
  {
    var path := d + "/" + tail;
    assert path[|d| + 1..] == tail;
    BasenameOfTail(path, |d| + 1);
  }

  /** A directory that the path lies below has a matching name. */
  ghost predicate AncestorNamed(pattern: string, path: string) {
    exists d: string, tail: string :: IsBelow(path, d, tail) && Glob(pattern, Basename(d))
  }

  lemma AncestorNamedBelow(pattern: string, first: string, rest: string)
    requires AncestorNamed(pattern, rest)
    ensures AncestorNamed(pattern, first + "/" + rest)
  {
    hide Glob, Basename;
    var d: string, tail: string :| IsBelow(rest, d, tail) && Glob(pattern, Basename(d));
    BasenameBelow(first, d);
    assert first + "/" + (d + "/" + tail) == (first + "/" + d) + "/" + tail;
    assert IsBelow(first + "/" + rest, first + "/" + d, tail);
  }

  /** The first component is the name of the outermost directory, or of the path itself. */
  lemma FirstComponentIsName(pattern: string, path: string)
    requires path != ""
    ensures FirstSlash(path) <= |path| && Basename(path[..FirstSlash(path)]) == path[..FirstSlash(path)]
    ensures FirstSlash(path) == |path| ==> path[..FirstSlash(path)] == path
    ensures FirstSlash(path) < |path| ==>
      && path == path[..FirstSlash(path)] + "/" + path[FirstSlash(path) + 1..]
      && (Glob(pattern, path[..FirstSlash(path)]) ==> AncestorNamed(pattern, path))
  {
    hide Glob, Basename, AncestorNamed, FirstSlash;
    FirstSlashIsFirst(path);
    var i := FirstSlash(path);
    BasenameWithoutSlash(path[..i]);
    if i < |path| {
      CutAtSlash(path, i);
      if Glob(pattern, path[..i]) { NamedByFirst(pattern, path[..i], path[i + 1..]); }
    } else {
      assert path[..i] == path;
    }
  }

  lemma CutAtSlash(path: string, i: nat)
    requires i < |path| && path[i] == '/'
    ensures path == path[..i] + "/" + path[i + 1..]
  {}

  lemma NamedByFirst(pattern: string, first: string, rest: string)
    requires Glob(pattern, Basename(first))
    ensures AncestorNamed(pattern, first + "/" + rest)
  {
    hide Glob, Basename;
    assert IsBelow(first + "/" + rest, first, rest);
  }

  /** A component of a path is its name or that of a directory it lies below. */
  lemma {:induction false} ComponentsAreNames(pattern: string, path: string)
    requires IsNormalized(path) && AnyMatches(pattern, Components(path))
    ensures Glob(pattern, Basename(path)) || AncestorNamed(pattern, path)
    decreases |path|
  {
    hide Glob, AnyMatches, Components, FirstSlash, Basename, AncestorNamed, IsNormalized;
    NotEmpty(path);
    FirstComponent(pattern, path);
    FirstComponentIsName(pattern, path);
    var i := FirstSlash(path);
    if i < |path| && !Glob(pattern, path[..i]) {
      PartsAreNormalized(path[..i], path[i + 1..]);
      ComponentsAreNames(pattern, path[i + 1..]);
      BasenameBelow(path[..i], path[i + 1..]);
      if AncestorNamed(pattern, path[i + 1..]) { AncestorNamedBelow(pattern, path[..i], path[i + 1..]); }
    }
  }

  function UnderBase(base: string, relative: string): string {
    if base == "" then relative else base + "/" + relative
  }

  lemma UnderBaseIsInside(base: string, relative: string)
    requires relative != ""
    ensures SameOrInside(UnderBase(base, relative), base) && RelativeToBase(UnderBase(base, relative), base) == relative
  {
    if base != "" { assert (base + "/" + relative)[..|base|] == base; }
  }

  /** A directory below the base that the file lies below, seen from the root. */
  lemma AncestorUnderBase(rule: Rule, path: string, d: string, tail: string)
    requires rule.base.Some? && d != "" && RelativeMatches(rule, d, true)
    requires SameOrInside(path, rule.base.value) && IsBelow(RelativeToBase(path, rule.base.value), d, tail)
    ensures AncestorMatches(rule, path)
  {
    hide RelativeMatches;
    var base := rule.base.value;
    UnderBaseIsInside(base, d);
    assert IsBelow(path, UnderBase(base, d), tail) by {
      if base != "" { assert path == base + "/" + RelativeToBase(path, base); }
    }
  }

  /** The path of a file inside the base, relative to it, is normalized too. */
  lemma RelativeIsNormalized(path: string, base: string)
    requires IsNormalized(path) && SameOrInside(path, base) && RelativeToBase(path, base) != ""
    ensures IsNormalized(RelativeToBase(path, base))
  {
    if base != "" {
      assert path == base + "/" + RelativeToBase(path, base);
      PartsAreNormalized(base, RelativeToBase(path, base));
    }
  }

  predicate OwnNameMatches(rule: Rule, path: string) {
    && rule.basenameOnly && rule.base.Some? && SameOrInside(path, rule.base.value)
    && RelativeToBase(path, rule.base.value) != ""
    && Glob(rule.pattern, Basename(RelativeToBase(path, rule.base.value)))
  }

  /** A directory-only rule matches a file through a directory the file lies below, or,
      if it is a name rule, through the file's own name; and in no other way. */
  lemma DirectoryRuleOnFile(rule: Rule, path: string)
    requires rule.directoryOnly && rule.base.Some? && IsNormalized(path)
    ensures RuleMatches(rule, path, false) == Some(true) <==> AncestorMatches(rule, path) || OwnNameMatches(rule, path)
  {
    hide Glob, AnyMatches, Components, Basename, IsNormalized;
    if AncestorMatches(rule, path) { AncestorRuleCovers(rule, path); }
    if OwnNameMatches(rule, path) { OwnNameIsEnough(rule, path); }
    if RuleMatches(rule, path, false) == Some(true) { MatchHasCause(rule, path); }
  }

  lemma AncestorRuleCovers(rule: Rule, path: string)
    requires rule.directoryOnly && rule.base.Some? && IsNormalized(path) && AncestorMatches(rule, path)
    ensures RuleMatches(rule, path, false) == Some(true)
  {
    hide RuleMatches;
    var d: string, tail: string :| IsBelow(path, d, tail) && RuleMatches(rule, d, true) == Some(true);
    PartsAreNormalized(d, tail);
    DirectoryRuleCoversContents(rule, d, tail);
  }

  lemma OwnNameIsEnough(rule: Rule, path: string)
    requires rule.directoryOnly && IsNormalized(path) && OwnNameMatches(rule, path)
    ensures RuleMatches(rule, path, false) == Some(true)
  {
    hide Glob, Components, Basename;
    var relative := RelativeToBase(path, rule.base.value);
    RelativeIsNormalized(path, rule.base.value);
    BasenameIsComponent(relative);
    var i :| 0 <= i < |Components(relative)| && Components(relative)[i] == Basename(relative);
  }

  lemma MatchHasCause(rule: Rule, path: string)
    requires rule.directoryOnly && rule.base.Some? && IsNormalized(path)
    requires RuleMatches(rule, path, false) == Some(true)
    ensures AncestorMatches(rule, path) || OwnNameMatches(rule, path)
  {
    hide Glob, AnyMatches, Components, Basename, IsNormalized, AncestorMatches, AncestorNamed;
    var base := rule.base.value;
    var relative := RelativeToBase(path, base);
    RelativeIsNormalized(path, base);
    if rule.basenameOnly {
      ComponentsAreNames(rule.pattern, relative);
      if AncestorNamed(rule.pattern, relative) { NamedAncestorMatches(rule, path); }
    } else {
      var tail := relative[|rule.pattern| + 1..];
      assert relative == rule.pattern + "/" + tail;
      PartsAreNormalized(rule.pattern, tail);
      NotEmpty(rule.pattern);
      AncestorUnderBase(rule, path, rule.pattern, tail);
    }
  }

  lemma NamedAncestorMatches(rule: Rule, path: string)
    requires rule.basenameOnly && rule.directoryOnly && rule.base.Some? && SameOrInside(path, rule.base.value)
    requires var relative := RelativeToBase(path, rule.base.value);
      IsNormalized(relative) && AncestorNamed(rule.pattern, relative)
    ensures AncestorMatches(rule, path)
  {
    hide Glob, Basename, SameOrInside, RelativeToBase, IsNormalized, AncestorMatches;
    var relative := RelativeToBase(path, rule.base.value);
    var d: string, tail: string :| IsBelow(relative, d, tail) && Glob(rule.pattern, Basename(d));
    PartsAreNormalized(d, tail);
    NotEmpty(d);
    AncestorUnderBase(rule, path, d, tail);
  }

  lemma NotEmpty(path: string)
    requires IsNormalized(path)
    ensures path != ""
  {}

  /** The exact condition: a directory-only rule leaves a file to its directories, as its
      name says, if and only if the file's own name does not match or a directory's does. */
  lemma DirectoryRuleIsAboutDirectoriesExactlyWhen(rule: Rule, path: string)
    requires rule.directoryOnly && rule.base.Some? && IsNormalized(path)
    ensures (RuleMatches(rule, path, false) == Some(true) <==> AncestorMatches(rule, path))
      <==> !OwnNameMatches(rule, path) || AncestorMatches(rule, path)
  {
    hide *;
    DirectoryRuleOnFile(rule, path);
  }

  // ---- Rules without wildcards -------------------------------------------------------------

  predicate IsLiteral(pattern: string) { '*' !in pattern && '?' !in pattern }

  lemma {:induction false} LiteralMatchesItself(pattern: string, text: string)
    requires IsLiteral(pattern)
    ensures Matches(pattern, text) <==> pattern == text
  {
    if pattern != "" && text != "" {
      LiteralMatchesItself(pattern[1..], text[1..]);
      assert pattern == [pattern[0]] + pattern[1..] && text == [text[0]] + text[1..];
    }
  }

  lemma LiteralGlob(pattern: string, text: string)
    requires IsLiteral(pattern)
    ensures Glob(pattern, text) <==> pattern == text
  {
    hide Glob, Matches;
    GlobIsExact(pattern, text);
    LiteralMatchesItself(pattern, text);
  }

  /** The path is the pattern below some directory. */
  ghost predicate LiesSomewhere(relative: string, pattern: string) {
    exists front: string :: IsBelow(relative, front, pattern)
  }

  lemma EndsWithMeans(relative: string, pattern: string)
    ensures EndsWith(relative, "/" + pattern) <==> LiesSomewhere(relative, pattern)
  {
    var suffix := "/" + pattern;
    if EndsWith(relative, suffix) {
      var front := relative[..|relative| - |suffix|];
      assert relative == front + suffix == front + "/" + pattern;
      assert IsBelow(relative, front, pattern);
    }
    if front: string :| IsBelow(relative, front, pattern) {
      assert relative == front + suffix && relative[|front|..] == suffix;
    }
  }

  lemma {:induction false} BasenameIsLast(relative: string)
    ensures '/' !in Basename(relative)
    ensures Basename(relative) == relative || LiesSomewhere(relative, Basename(relative))
  {
    if relative != "" {
      var front, last := relative[..|relative| - 1], relative[|relative| - 1];
      assert relative == front + [last];
      if last == '/' {
        assert relative == front + "/" + "";
        assert IsBelow(relative, front, "");
      } else {
        BasenameIsLast(front);
        if d: string :| IsBelow(front, d, Basename(front)) {
          assert relative == d + "/" + (Basename(front) + [last]);
          assert IsBelow(relative, d, Basename(relative));
        }
      }
    }
  }

  lemma LiteralBasename(relative: string, name: string)
    requires '/' !in name && name != ""
    ensures Basename(relative) == name <==> relative == name || LiesSomewhere(relative, name)
  {
    hide Basename;
    BasenameIsLast(relative);
    if relative == name { BasenameWithoutSlash(name); }
    if front: string :| IsBelow(relative, front, name) {
      BasenameWithoutSlash(name);
      BasenameBelow(front, name);
    }
  }

  /** What a rule without wildcards matches, below its base: an anchored one that path,
      any other one that path at any depth, and so a name everywhere. */
  lemma LiteralRuleMatches(rule: Rule, relative: string, isDirectory: bool)
    requires rule.base.Some? && !rule.directoryOnly && relative != ""
    requires IsLiteral(rule.pattern) && rule.pattern != "" && (rule.basenameOnly ==> '/' !in rule.pattern)
    ensures RuleMatches(rule, UnderBase(rule.base.value, relative), isDirectory) == Some(
      relative == rule.pattern || ((rule.basenameOnly || !rule.anchored) && LiesSomewhere(relative, rule.pattern)))
  {
    hide Glob, Basename, LiesSomewhere, UnderBase, EndsWith, Components, SameOrInside, RelativeToBase, IsLiteral;
    UnderBaseIsInside(rule.base.value, relative);
    LiteralGlob(rule.pattern, relative);
    LiteralGlob(rule.pattern, Basename(relative));
    EndsWithMeans(relative, rule.pattern);
    if rule.basenameOnly { LiteralBasename(relative, rule.pattern); }
  }

  /** And no rule reaches outside its base. */
  lemma NothingOutsideBase(rule: Rule, path: string, isDirectory: bool)
    requires rule.base.Some? && rule.base.value != "" && RuleMatches(rule, path, isDirectory) == Some(true)
    ensures exists tail: string :: tail != "" && IsBelow(path, rule.base.value, tail)
  {
    hide RelativeMatches;
    var base := rule.base.value;
    if path == base {
      assert RelativeToBase(path, base) == "";
      NothingRelative(rule, isDirectory);
    } else {
      var tail := path[|base| + 1..];
      assert path == base + "/" + tail;
      assert RelativeToBase(path, base) == tail;
      if tail == "" { NothingRelative(rule, isDirectory); }
      assert IsBelow(path, base, tail);
    }
  }

  lemma NothingRelative(rule: Rule, isDirectory: bool)
    ensures !RelativeMatches(rule, "", isDirectory)
  {}
}
