/**
 The settings export writer, the cursor that reads it back, and the round trip.
 Printers take the text that follows, so that reading peels them off in order.
 */
module SettingsExport {
  import opened Optional
  import opened Decimal
  import opened SettingsText

  // ---- Printing -----------------------------------------------------------------------

  function Escape(s: string): string {
    if s == "" then "" else EscapeChar(s[0]) + Escape(s[1..])
  }

  function EscapeChar(c: char): string {
    if c == '"' then "\\\"" else if c == '\\' then "\\\\"
    else if c == '\n' then "\\n" else if c == '\r' then "\\r" else if c == '\t' then "\\t"
    else [c]
  }

  function Quoted(s: string): string { "\"" + Escape(s) + "\"" }

  /** One member of an object: separator, key, colon and value text. */
  function Member(sep: string, key: string, value: string, rest: string): string {
    sep + Quoted(key) + ":" + value + rest
  }

  function PrintGlobal(g: GlobalSettings, rest: string): string
    requires g.schemaVersion >= 0
  {
    var sep := ",\n    ";
    Member("{\n    ", "schemaVersion", Digits(g.schemaVersion as nat),
    Member(sep, "themeMode", Quoted(ThemeText(g.themeMode)),
    Member(sep, "language", Quoted(LanguageText(g.language)),
    Member(sep, "maximumThreadCount", Digits(g.maximumThreadCount as nat),
    Member(sep, "maximumFileSizeBytes", Digits(g.maximumFileSizeBytes as nat),
    Member(sep, "resultLimit", Digits(g.resultLimit as nat),
    Member(sep, "memoryBudgetBytes", Digits(g.memoryBudgetBytes as nat),
    Member(sep, "diskBudgetBytes", Digits(g.diskBudgetBytes as nat),
    Member(sep, "telemetryEnabled", BoolText(g.telemetryEnabled), "\n  }" + rest)))))))))
  }

  function PrintSearch(s: SavedSearch, rest: string): string {
    Member("{", "name", Quoted(s.name),
    Member(", ", "root", Quoted(s.root),
    Member(", ", "expression", Quoted(s.expression),
    Member(", ", "savedAtUnixMs", Digits(UnixMilliseconds(s.savedAt)), "}" + rest))))
  }

  /** The searches after the first one carry a leading comma. */
  function PrintSearchRun(searches: seq<SavedSearch>, rest: string): string
    requires searches != []
  {
    "\n    " + PrintSearch(searches[0],
      if |searches| == 1 then "\n" + rest else "," + PrintSearchRun(searches[1..], rest))
  }

  function PrintSearches(searches: seq<SavedSearch>, rest: string): string {
    "[" + (if searches == [] then "  ]" + rest else PrintSearchRun(searches, "  ]" + rest))
  }

  /** The keys "global" and "savedSearches" are followed by a colon and a space. */
  function PrintExport(g: GlobalSettings, searches: seq<SavedSearch>): string {
    Member("{\n  ", "format", Quoted("uburu-settings-export"),
    Member(",\n  ", "version", Digits(1),
    Member(",\n  ", "global", " " + PrintGlobal(Normalized(g),
      Member(",\n  ", "savedSearches", " " + PrintSearches(searches, "\n}\n"), "")), "")))
  }

  // ---- Reading back each piece -----------------------------------------------------------

  predicate AllSpace(s: string) { forall i :: 0 <= i < |s| ==> IsSpace(s[i]) }

  lemma {:induction false} SkipsSpaces(spaces: string, rest: string)
    requires AllSpace(spaces)
    ensures SkipWhitespace(spaces + rest) == SkipWhitespace(rest)
  {
    if spaces == "" {
      assert spaces + rest == rest;
    } else {
      assert (spaces + rest)[1..] == spaces[1..] + rest;
      SkipsSpaces(spaces[1..], rest);
    }
  }

  lemma ExpectAfterSpaces(spaces: string, c: char, rest: string)
    requires AllSpace(spaces) && !IsSpace(c)
    ensures Expect(spaces + [c] + rest, c) == Some(rest)
  {
    assert spaces + [c] + rest == spaces + ([c] + rest);
    SkipsSpaces(spaces, [c] + rest);
  }

  lemma EscapedCharReadsBack(c: char, tail: string, value: string, rest: string)
    requires ReadBody(tail) == Some((value, rest))
    ensures ReadBody(EscapeChar(c) + tail) == Some(([c] + value, rest))
  {
    var text := EscapeChar(c) + tail;
    assert text[0] == EscapeChar(c)[0] && text[|EscapeChar(c)|..] == tail;
    if |EscapeChar(c)| == 2 { assert text[1] == EscapeChar(c)[1]; }
  }

  lemma {:induction false} BodyReadsBack(s: string, rest: string)
    ensures ReadBody(Escape(s) + "\"" + rest) == Some((s, rest))
  {
    var text := Escape(s) + "\"" + rest;
    if s == "" {
      assert text == "\"" + rest;
    } else {
      BodyReadsBack(s[1..], rest);
      var tail := Escape(s[1..]) + "\"" + rest;
      assert text == EscapeChar(s[0]) + tail;
      EscapedCharReadsBack(s[0], tail, s[1..], rest);
      assert [s[0]] + s[1..] == s;
      hide ReadBody, EscapeChar;
    }
  }

  lemma StringReadsBack(spaces: string, s: string, rest: string)
    requires AllSpace(spaces)
    ensures ReadString(spaces + Quoted(s) + rest) == Some((s, rest))
  {
    assert spaces + Quoted(s) + rest == spaces + ['"'] + (Escape(s) + "\"" + rest);
    ExpectAfterSpaces(spaces, '"', Escape(s) + "\"" + rest);
    BodyReadsBack(s, rest);
  }

  lemma NumberReadsBack(n: nat, rest: string)
    requires n <= UINT64_MAX && rest != "" && !IsDigit(rest[0])
    ensures ReadUnsigned(Digits(n) + rest) == Some((n as Unsigned, rest))
    ensures n <= INT32_MAX ==> ReadInt(Digits(n) + rest) == Some((n as Signed, rest))
  {
    var text := Digits(n) + rest;
    assert text[0] == Digits(n)[0];
    DigitSpanOf(Digits(n), rest);
    assert text[..|Digits(n)|] == Digits(n) && text[|Digits(n)|..] == rest;
    ParseDigits(n, UINT64_MAX);
  }

  lemma BoolReadsBack(b: bool, rest: string)
    ensures ReadBool(BoolText(b) + rest) == Some((b, rest))
  {
    var text := BoolText(b) + rest;
    assert BoolText(b)[0] in {'t', 'f'};
    assert text[0] == BoolText(b)[0];
    if b {
      assert text[..4] == "true" && text[4..] == rest;
    } else {
      assert text[..5] == "false" && text[5..] == rest;
    }
  }

  lemma MemberOpens(open: char, spaces: string, key: string, value: string, rest: string)
    requires !IsSpace(open) && AllSpace(spaces)
    ensures OpenMember(Member([open] + spaces, key, value, rest), open, key) == Some(value + rest)
  {
    var tail := ":" + value + rest;
    assert Member([open] + spaces, key, value, rest) == "" + [open] + (spaces + Quoted(key) + tail);
    ExpectAfterSpaces("", open, spaces + Quoted(key) + tail);
    StringReadsBack(spaces, key, tail);
    assert tail == "" + [':'] + (value + rest);
    ExpectAfterSpaces("", ':', value + rest);
  }

  lemma TextMemberReadsBack(open: char, spaces: string, key: string, text: string, rest: string)
    requires !IsSpace(open) && AllSpace(spaces)
    ensures TextMember(Member([open] + spaces, key, Quoted(text), rest), open, key) == Some((text, rest))
  {
    hide Quoted, Member, OpenMember, ReadString;
    MemberOpens(open, spaces, key, Quoted(text), rest);
    StringReadsBack("", text, rest);
    assert "" + Quoted(text) + rest == Quoted(text) + rest;
  }

  lemma NumberMemberReadsBack(open: char, spaces: string, key: string, n: nat, rest: string)
    requires !IsSpace(open) && AllSpace(spaces) && n <= UINT64_MAX && rest != "" && !IsDigit(rest[0])
    ensures var text := Member([open] + spaces, key, Digits(n), rest);
      NumberMember(text, open, key) == Some((n as Unsigned, rest))
      && (n <= INT32_MAX ==> IntMember(text, open, key) == Some((n as Signed, rest)))
  {
    hide Digits, Member, OpenMember, ReadUnsigned, ReadInt;
    MemberOpens(open, spaces, key, Digits(n), rest);
    NumberReadsBack(n, rest);
  }

  lemma MemberStart(sep: string, key: string, value: string, rest: string)
    requires sep != ""
    ensures Member(sep, key, value, rest) != "" && Member(sep, key, value, rest)[0] == sep[0]
  {
  }

  lemma SearchReadsBack(x: SavedSearch, rest: string)
    ensures ReadSearch(PrintSearch(x, rest)) == Some((Exported(x), rest))
  {
    hide Quoted, Member, Digits, TextMember, NumberMember, UnixMilliseconds, FromUnixMilliseconds;
    TimeReadsBack(x);
    var r4 := "}" + rest;
    var r3 := Member(", ", "savedAtUnixMs", Digits(UnixMilliseconds(x.savedAt)), r4);
    var r2 := Member(", ", "expression", Quoted(x.expression), r3);
    var r1 := Member(", ", "root", Quoted(x.root), r2);
    TextMemberReadsBack('{', "", "name", x.name, r1);
    TextMemberReadsBack(',', " ", "root", x.root, r2);
    TextMemberReadsBack(',', " ", "expression", x.expression, r3);
    NumberMemberReadsBack(',', " ", "savedAtUnixMs", UnixMilliseconds(x.savedAt), r4);
    assert "{" == ['{'] + "" && ", " == [','] + " ";
    ExpectAfterSpaces("", '}', rest);
    assert r4 == "" + ['}'] + rest;
  }

  function ExportedAll(searches: seq<SavedSearch>): seq<SavedSearch> {
    if searches == [] then [] else [Exported(searches[0])] + ExportedAll(searches[1..])
  }

  lemma ConsumeFinds(spaces: string, c: char, rest: string)
    requires AllSpace(spaces) && !IsSpace(c)
    ensures Consume(spaces + [c] + rest, c) == (true, rest)
  {
    ExpectAfterSpaces(spaces, c, rest);
  }

  lemma ConsumeMisses(spaces: string, c: char, rest: string)
    requires AllSpace(spaces) && rest != "" && !IsSpace(rest[0]) && rest[0] != c
    ensures Consume(spaces + rest, c) == (false, rest)
  {
    SkipsSpaces(spaces, rest);
  }

  /** White space in front of an object never changes what it reads as. */
  lemma OpenAfterSpaces(spaces: string, s: string, open: char, key: string)
    requires AllSpace(spaces)
    ensures TextMember(spaces + s, open, key) == TextMember(s, open, key)
    ensures IntMember(spaces + s, open, key) == IntMember(s, open, key)
  {
    hide ReadString, ReadInt, ExpectKey;
    SkipsSpaces(spaces, s);
  }

  lemma SearchAfterSpaces(spaces: string, s: string)
    requires AllSpace(spaces)
    ensures ReadSearch(spaces + s) == ReadSearch(s)
  {
    hide TextMember, NumberMember, Expect;
    OpenAfterSpaces(spaces, s, '{', "name");
  }

  lemma GlobalAfterSpaces(spaces: string, s: string)
    requires AllSpace(spaces)
    ensures ReadGlobal(spaces + s) == ReadGlobal(s)
  {
    hide TextMember, NumberMember, IntMember, BoolMember, Expect, Normalized;
    OpenAfterSpaces(spaces, s, '{', "schemaVersion");
  }

  lemma SearchRunAfterSpaces(spaces: string, s: string)
    requires AllSpace(spaces)
    ensures ReadSearchRun(spaces + s) == ReadSearchRun(s)
  {
    hide ReadSearch;
    SearchAfterSpaces(spaces, s);
  }

  lemma {:induction false} SearchRunReadsBack(searches: seq<SavedSearch>, spaces: string, rest: string)
    requires searches != [] && AllSpace(spaces) && rest != "" && !IsSpace(rest[0]) && rest[0] != ','
    ensures ReadSearchRun(PrintSearchRun(searches, spaces + rest)) == Some((ExportedAll(searches), rest))
  {
    hide ReadSearch, PrintSearch, Consume;
    var last := |searches| == 1;
    var next := if last then "\n" + (spaces + rest) else "," + PrintSearchRun(searches[1..], spaces + rest);
    SearchAfterSpaces("\n    ", PrintSearch(searches[0], next));
    SearchReadsBack(searches[0], next);
    if last {
      assert next == ("\n" + spaces) + rest;
      ConsumeMisses("\n" + spaces, ',', rest);
      assert ExportedAll(searches[1..]) == [];
      assert ExportedAll(searches) == [Exported(searches[0])];
    } else {
      assert next == "" + [','] + PrintSearchRun(searches[1..], spaces + rest);
      ConsumeFinds("", ',', PrintSearchRun(searches[1..], spaces + rest));
      SearchRunReadsBack(searches[1..], spaces, rest);
    }
  }

  lemma SearchesReadBack(spaces: string, searches: seq<SavedSearch>, rest: string)
    requires AllSpace(spaces)
    ensures ReadSearches(spaces + PrintSearches(searches, rest)) == Some((ExportedAll(searches), rest))
  {
    hide ReadSearchRun, PrintSearchRun, Consume, Expect;
    var close := "]" + rest;
    assert "  ]" + rest == "  " + close && close == "" + [']'] + rest;
    if searches == [] {
      assert spaces + PrintSearches(searches, rest) == spaces + ['['] + ("  " + close);
      ExpectAfterSpaces(spaces, '[', "  " + close);
      assert "  " + close == "  " + [']'] + rest;
      ConsumeFinds("  ", ']', rest);
    } else {
      var run := PrintSearchRun(searches, "  " + close);
      assert spaces + PrintSearches(searches, rest) == spaces + ['['] + run;
      ExpectAfterSpaces(spaces, '[', run);
      RunIsNotEmpty(searches, "  " + close);
      SearchRunReadsBack(searches, "  ", close);
      ExpectAfterSpaces("", ']', rest);
    }
  }

  /** The look-ahead for an empty list fails and skips only white space. */
  lemma RunIsNotEmpty(searches: seq<SavedSearch>, rest: string)
    requires searches != []
    ensures var run := PrintSearchRun(searches, rest);
      !Consume(run, ']').0 && ReadSearchRun(Consume(run, ']').1) == ReadSearchRun(run)
  {
    hide ReadSearchRun, Consume, PrintSearch;
    var next := if |searches| == 1 then "\n" + rest else "," + PrintSearchRun(searches[1..], rest);
    var first := PrintSearch(searches[0], next);
    SearchStart(searches[0], next);
    ConsumeMisses("\n    ", ']', first);
    SearchRunAfterSpaces("\n    ", first);
  }

  lemma SearchStart(x: SavedSearch, rest: string)
    ensures PrintSearch(x, rest) != "" && PrintSearch(x, rest)[0] == '{'
  {
    hide Quoted;
  }

  lemma GlobalReadsBack(g: GlobalSettings, rest: string)
    requires g.schemaVersion >= 0
    ensures ReadGlobal(PrintGlobal(g, rest)) == Some((Normalized(g), rest))
  {
    hide Quoted, Member, Digits, OpenMember, TextMember, NumberMember, IntMember, ReadBool, Expect, Normalized;
    hide ThemeOf, ThemeText, LanguageOf, LanguageText, BoolText;
    var gap := "\n    ";
    assert ",\n    " == [','] + gap && "{\n    " == ['{'] + gap;
    var r9 := "\n  }" + rest;
    var r8 := Member(",\n    ", "telemetryEnabled", BoolText(g.telemetryEnabled), r9);
    var r7 := Member(",\n    ", "diskBudgetBytes", Digits(g.diskBudgetBytes as nat), r8);
    var r6 := Member(",\n    ", "memoryBudgetBytes", Digits(g.memoryBudgetBytes as nat), r7);
    var r5 := Member(",\n    ", "resultLimit", Digits(g.resultLimit as nat), r6);
    var r4 := Member(",\n    ", "maximumFileSizeBytes", Digits(g.maximumFileSizeBytes as nat), r5);
    var r3 := Member(",\n    ", "maximumThreadCount", Digits(g.maximumThreadCount as nat), r4);
    var r2 := Member(",\n    ", "language", Quoted(LanguageText(g.language)), r3);
    var r1 := Member(",\n    ", "themeMode", Quoted(ThemeText(g.themeMode)), r2);
    MemberStarts(",\n    ");
    NumberMemberReadsBack('{', gap, "schemaVersion", g.schemaVersion as nat, r1);
    TextMemberReadsBack(',', gap, "themeMode", ThemeText(g.themeMode), r2);
    TextMemberReadsBack(',', gap, "language", LanguageText(g.language), r3);
    NumberMemberReadsBack(',', gap, "maximumThreadCount", g.maximumThreadCount as nat, r4);
    NumberMemberReadsBack(',', gap, "maximumFileSizeBytes", g.maximumFileSizeBytes as nat, r5);
    NumberMemberReadsBack(',', gap, "resultLimit", g.resultLimit as nat, r6);
    NumberMemberReadsBack(',', gap, "memoryBudgetBytes", g.memoryBudgetBytes as nat, r7);
    NumberMemberReadsBack(',', gap, "diskBudgetBytes", g.diskBudgetBytes as nat, r8);
    MemberOpens(',', gap, "telemetryEnabled", BoolText(g.telemetryEnabled), r9);
    BoolReadsBack(g.telemetryEnabled, r9);
    ExpectAfterSpaces("\n  ", '}', rest);
    assert r9 == "\n  " + ['}'] + rest;
    EnumTextsReadBack(g.themeMode, g.language);
  }

  lemma MemberStarts(sep: string)
    requires sep != ""
    ensures forall key, value, rest :: Member(sep, key, value, rest) != "" && Member(sep, key, value, rest)[0] == sep[0]
  {
    forall key, value, rest ensures Member(sep, key, value, rest) != "" && Member(sep, key, value, rest)[0] == sep[0] {
      MemberStart(sep, key, value, rest);
    }
  }

  /** What importing an export yields. */
  function Reimported(g: GlobalSettings, searches: seq<SavedSearch>): Option<Payload> {
    ReadExport(PrintExport(g, searches))
  }

  /** Reading back a written export succeeds, consumes all of it and gives the
      normalized settings and the searches, for every input. */
  lemma ExportReadsBack(g: GlobalSettings, searches: seq<SavedSearch>)
    ensures Reimported(g, searches) == Some(Payload(Normalized(g), ExportedAll(searches)))
  {
    hide Quoted, Member, Digits, OpenMember, TextMember, IntMember, ReadGlobal, PrintGlobal;
    hide ReadSearches, PrintSearches, Expect, Normalized, ExportedAll;
    NormalizedIsStable(g);
    var n := Normalized(g);
    var end := "\n}\n";
    var searchText := " " + PrintSearches(searches, end);
    var r3 := Member(",\n  ", "savedSearches", searchText, "");
    var globalText := " " + PrintGlobal(n, r3);
    var r2 := Member(",\n  ", "global", globalText, "");
    var r1 := Member(",\n  ", "version", Digits(1), r2);
    assert "{\n  " == ['{'] + "\n  " && ",\n  " == [','] + "\n  ";
    MemberStarts(",\n  ");
    TextMemberReadsBack('{', "\n  ", "format", "uburu-settings-export", r1);
    NumberMemberReadsBack(',', "\n  ", "version", 1, r2);
    MemberOpens(',', "\n  ", "global", globalText, "");
    GlobalReadsBack(n, r3);
    GlobalAfterSpaces(" ", PrintGlobal(n, r3));
    assert globalText + "" == globalText && searchText + "" == searchText;
    MemberOpens(',', "\n  ", "savedSearches", searchText, "");
    SearchesReadBack(" ", searches, end);
    EndReadsBack();
  }

  lemma EndReadsBack()
    ensures Expect("\n}\n", '}') == Some("\n") && SkipWhitespace("\n") == ""
  {
    assert "\n}\n" == "\n" + ['}'] + "\n";
    ExpectAfterSpaces("\n", '}', "\n");
    SkipsSpaces("\n", "");
    assert "\n" + "" == "\n";
  }

  /** A time that an export keeps. */
  predicate WholeMilliseconds(s: SavedSearch) { s.savedAt >= 0 && s.savedAt % 1_000_000 == 0 }

  /** Only settings outside the limits, times before the epoch and fractions of a
      millisecond change. */
  lemma {:induction false} ExportIsLosslessExactlyWhen(g: GlobalSettings, searches: seq<SavedSearch>)
    ensures Reimported(g, searches) == Some(Payload(g, searches)) <==>
      Normalized(g) == g && forall i :: 0 <= i < |searches| ==> WholeMilliseconds(searches[i])
  {
    ExportReadsBack(g, searches);
    ExportedAllSame(searches);
    hide Reimported, Normalized;
  }

  lemma ExportedSame(s: SavedSearch)
    ensures Exported(s) == s <==> WholeMilliseconds(s)
  {}

  lemma {:induction false} ExportedAllSame(searches: seq<SavedSearch>)
    ensures |ExportedAll(searches)| == |searches|
    ensures ExportedAll(searches) == searches <==> forall i :: 0 <= i < |searches| ==> WholeMilliseconds(searches[i])
  {
    hide Exported, WholeMilliseconds;
    if searches != [] {
      ExportedAllSame(searches[1..]);
      ExportedSame(searches[0]);
      assert searches == [searches[0]] + searches[1..];
      assert ExportedAll(searches)[1..] == ExportedAll(searches[1..]);
      assert (forall i :: 0 <= i < |searches| ==> WholeMilliseconds(searches[i])) <==>
        WholeMilliseconds(searches[0]) && forall i :: 0 <= i < |searches[1..]| ==> WholeMilliseconds(searches[1..][i]);
    }
  }
}
