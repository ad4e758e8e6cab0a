/**
 The settings service's reader and writer of the export text, with a cursor and a
 growing string.
 */
module SettingsServices {
  import opened Optional
  import opened Decimal
  import T = SettingsText
  import opened SettingsExport
  import opened JsonReading
  import P = PreferenceStorage

  // ---- Reading -------------------------------------------------------------------------

  method NextText(reader: JsonReader, open: char, key: string) returns (result: Option<string>)
    requires reader.Valid()
    modifies reader
    ensures reader.Valid()
    ensures match T.TextMember(old(reader.Rest()), open, key)
            case Some(p) => result == Some(p.0) && reader.Rest() == p.1
            case None => result.None?
  {
    hide T.OpenMember, T.ReadString;
    var ok := reader.OpenMember(open, key);
    if !ok { return None; }
    result := reader.ReadString();
  }

  method NextUnsigned(reader: JsonReader, open: char, key: string) returns (result: Option<T.Unsigned>)
    requires reader.Valid()
    modifies reader
    ensures reader.Valid()
    ensures match T.NumberMember(old(reader.Rest()), open, key)
            case Some(p) => result == Some(p.0) && reader.Rest() == p.1
            case None => result.None?
  {
    hide T.OpenMember, T.ReadUnsigned;
    var ok := reader.OpenMember(open, key);
    if !ok { return None; }
    result := reader.ReadUnsignedMax();
  }

  method NextInt(reader: JsonReader, open: char, key: string) returns (result: Option<T.Signed>)
    requires reader.Valid()
    modifies reader
    ensures reader.Valid()
    ensures match T.IntMember(old(reader.Rest()), open, key)
            case Some(p) => result == Some(p.0) && reader.Rest() == p.1
            case None => result.None?
  {
    hide T.OpenMember, T.ReadInt;
    var ok := reader.OpenMember(open, key);
    if !ok { return None; }
    result := reader.ReadInt();
  }

  method NextBool(reader: JsonReader, open: char, key: string) returns (result: Option<bool>)
    requires reader.Valid()
    modifies reader
    ensures reader.Valid()
    ensures match T.BoolMember(old(reader.Rest()), open, key)
            case Some(p) => result == Some(p.0) && reader.Rest() == p.1
            case None => result.None?
  {
    hide T.OpenMember, T.ReadBool;
    var ok := reader.OpenMember(open, key);
    if !ok { return None; }
    result := reader.ReadBool();
  }

  method ReadGlobalSettings(reader: JsonReader) returns (result: Option<T.GlobalSettings>)
    requires reader.Valid()
    modifies reader
    ensures reader.Valid()
    ensures match T.ReadGlobal(old(reader.Rest()))
            case Some(p) => result == Some(p.0) && reader.Rest() == p.1
            case None => result.None?
  {
    hide T.TextMember, T.NumberMember, T.IntMember, T.BoolMember, T.Expect, T.Normalized, T.ThemeOf, T.LanguageOf;
    var schemaVersion := NextInt(reader, '{', "schemaVersion");
    if schemaVersion.None? { return None; }
    var theme := NextText(reader, ',', "themeMode");
    if theme.None? { return None; }
    var language := NextText(reader, ',', "language");
    if language.None? { return None; }
    var threads := NextUnsigned(reader, ',', "maximumThreadCount");
    if threads.None? { return None; }
    var fileSize := NextUnsigned(reader, ',', "maximumFileSizeBytes");
    if fileSize.None? { return None; }
    var limit := NextUnsigned(reader, ',', "resultLimit");
    if limit.None? { return None; }
    var memory := NextUnsigned(reader, ',', "memoryBudgetBytes");
    if memory.None? { return None; }
    var disk := NextUnsigned(reader, ',', "diskBudgetBytes");
    if disk.None? { return None; }
    var telemetry := NextBool(reader, ',', "telemetryEnabled");
    if telemetry.None? { return None; }
    var ok := reader.Expect('}');
    if !ok { return None; }
    return Some(T.Normalized(T.GlobalSettings(
      schemaVersion.value, T.ThemeOf(theme.value), T.LanguageOf(language.value), threads.value, fileSize.value,
      limit.value, memory.value, disk.value, telemetry.value)));
  }

  method ReadSavedSearch(reader: JsonReader) returns (result: Option<T.SavedSearch>)
    requires reader.Valid()
    modifies reader
    ensures reader.Valid()
    ensures match T.ReadSearch(old(reader.Rest()))
            case Some(p) => result == Some(p.0) && reader.Rest() == p.1
            case None => result.None?
  {
    hide T.TextMember, T.NumberMember, T.Expect;
    var name := NextText(reader, '{', "name");
    if name.None? { return None; }
    var root := NextText(reader, ',', "root");
    if root.None? { return None; }
    var expression := NextText(reader, ',', "expression");
    if expression.None? { return None; }
    var savedAt := NextUnsigned(reader, ',', "savedAtUnixMs");
    if savedAt.None? { return None; }
    var ok := reader.Expect('}');
    if !ok { return None; }
    return Some(T.SavedSearch(name.value, root.value, expression.value, T.FromUnixMilliseconds(savedAt.value)));
  }

  method ReadSavedSearches(reader: JsonReader) returns (result: Option<seq<T.SavedSearch>>)
    requires reader.Valid()
    modifies reader
    ensures reader.Valid()
    ensures match T.ReadSearches(old(reader.Rest()))
            case Some(p) => result == Some(p.0) && reader.Rest() == p.1
            case None => result.None?
  {
    hide T.ReadSearchRun, T.Expect, T.Consume;
    var ok := reader.Expect('[');
    if !ok { return None; }
    var empty := reader.Consume(']');
    if empty { return Some([]); }
    result := ReadSearchLoop(reader);
    if result.None? { return; }
    ok := reader.Expect(']');
    if !ok { return None; }
  }

  /** `done` followed by what a run of searches still yields. */
  ghost function RunAfter(done: seq<T.SavedSearch>, run: Option<(seq<T.SavedSearch>, string)>)
      : Option<(seq<T.SavedSearch>, string)>
  {
    match run case Some(p) => Some((done + p.0, p.1)) case None => None
  }

  lemma OneMoreSearch(done: seq<T.SavedSearch>, text: string)
    ensures RunAfter([], T.ReadSearchRun(text)) == T.ReadSearchRun(text)
    ensures match T.ReadSearch(text)
      case None => RunAfter(done, T.ReadSearchRun(text)) == None
      case Some(p) =>
        var next := T.Consume(p.1, ',');
        RunAfter(done, T.ReadSearchRun(text)) ==
          if next.0 then RunAfter(done + [p.0], T.ReadSearchRun(next.1)) else Some((done + [p.0], next.1))
  {
    hide T.ReadSearch, T.Consume;
    var run := T.ReadSearchRun(text);
    if run.Some? {
      assert [] + run.value.0 == run.value.0;
      var p := T.ReadSearch(text).value;
      var next := T.Consume(p.1, ',');
      if next.0 {
        var others := T.ReadSearchRun(next.1).value.0;
        assert done + ([p.0] + others) == done + [p.0] + others;
      }
    }
  }

  /** The loop that reads one search and goes on while it consumes a comma. */
  method ReadSearchLoop(reader: JsonReader) returns (result: Option<seq<T.SavedSearch>>)
    requires reader.Valid()
    modifies reader
    ensures reader.Valid()
    ensures match T.ReadSearchRun(old(reader.Rest()))
            case Some(p) => result == Some(p.0) && reader.Rest() == p.1
            case None => result.None?
  {
    hide T.ReadSearch, T.Consume, T.ReadSearchRun, RunAfter;
    ghost var run := T.ReadSearchRun(reader.Rest());
    var searches := [];
    var more := true;
    OneMoreSearch([], reader.Rest());
    while more
      invariant reader.Valid()
      invariant run == if more then RunAfter(searches, T.ReadSearchRun(reader.Rest()))
        else Some((searches, reader.Rest()))
      decreases more, |reader.Rest()|
    {
      OneMoreSearch(searches, reader.Rest());
      var search := ReadSavedSearch(reader);
      if search.None? { return None; }
      more := reader.Consume(',');
      searches := searches + [search.value];
    }
    return Some(searches);
  }

  /** readSettingsExport: None stands for the thrown invalid_argument. */
  method ReadSettingsExport(text: string) returns (result: Option<T.Payload>)
    ensures result == T.ReadExport(text)
  {
    hide T.TextMember, T.IntMember, T.OpenMember, T.ReadGlobal, T.ReadSearches, T.Expect;
    var reader := new JsonReader(text);
    var format := NextText(reader, '{', "format");
    if format.None? || format.value != "uburu-settings-export" { return None; }
    var version := NextInt(reader, ',', "version");
    if version.None? || version.value != 1 { return None; }
    var ok := reader.OpenMember(',', "global");
    if !ok { return None; }
    var global := ReadGlobalSettings(reader);
    if global.None? { return None; }
    ok := reader.OpenMember(',', "savedSearches");
    if !ok { return None; }
    var searches := ReadSavedSearches(reader);
    if searches.None? { return None; }
    ok := reader.Expect('}');
    if !ok { return None; }
    reader.SkipWhitespace();
    if reader.position != |reader.text| { return None; }
    return Some(T.Payload(global.value, searches.value));
  }

  // ---- Writing -------------------------------------------------------------------------

  method EscapedJsonString(value: string) returns (escaped: string)
    ensures escaped == Quoted(value)
  {
    escaped := "\"";
    assert value[0..] == value;
    for i := 0 to |value|
      invariant escaped + Escape(value[i..]) == "\"" + Escape(value)
    {
      assert value[i..][1..] == value[i + 1..];
      assert escaped + (EscapeChar(value[i]) + Escape(value[i + 1..]))
        == escaped + EscapeChar(value[i]) + Escape(value[i + 1..]);
      escaped := escaped + EscapeChar(value[i]);
    }
    assert escaped + "" == escaped;
    escaped := escaped + "\"";
  }

  /** output += separator, quoted key, colon and value. */
  method AppendMember(output: string, sep: string, key: string, value: string, ghost rest: string)
      returns (extended: string)
    ensures extended + rest == output + Member(sep, key, value, rest)
  {
    var quoted := EscapedJsonString(key);
    extended := output + sep;
    extended := extended + quoted;
    extended := extended + ":";
    extended := extended + value;
    assert extended + rest == output + (sep + Quoted(key) + ":" + value + rest);
  }

  lemma AppendThen(output: string, piece: string, rest: string)
    ensures output + piece + rest == output + (piece + rest)
  {}

  method AppendGlobal(output: string, g: T.GlobalSettings, ghost rest: string) returns (extended: string)
    requires g.schemaVersion >= 0
    ensures extended + rest == output + PrintGlobal(g, rest)
  {
    hide Member, Quoted, Digits, T.ThemeText, T.LanguageText, T.BoolText;
    var sep := ",\n    ";
    ghost var r9 := "\n  }" + rest;
    ghost var r8 := Member(sep, "telemetryEnabled", T.BoolText(g.telemetryEnabled), r9);
    ghost var r7 := Member(sep, "diskBudgetBytes", Digits(g.diskBudgetBytes as nat), r8);
    ghost var r6 := Member(sep, "memoryBudgetBytes", Digits(g.memoryBudgetBytes as nat), r7);
    ghost var r5 := Member(sep, "resultLimit", Digits(g.resultLimit as nat), r6);
    ghost var r4 := Member(sep, "maximumFileSizeBytes", Digits(g.maximumFileSizeBytes as nat), r5);
    ghost var r3 := Member(sep, "maximumThreadCount", Digits(g.maximumThreadCount as nat), r4);
    var language := EscapedJsonString(T.LanguageText(g.language));
    ghost var r2 := Member(sep, "language", language, r3);
    var theme := EscapedJsonString(T.ThemeText(g.themeMode));
    ghost var r1 := Member(sep, "themeMode", theme, r2);
    extended := AppendMember(output, "{\n    ", "schemaVersion", Digits(g.schemaVersion as nat), r1);
    extended := AppendMember(extended, sep, "themeMode", theme, r2);
    extended := AppendMember(extended, sep, "language", language, r3);
    extended := AppendMember(extended, sep, "maximumThreadCount", Digits(g.maximumThreadCount as nat), r4);
    extended := AppendMember(extended, sep, "maximumFileSizeBytes", Digits(g.maximumFileSizeBytes as nat), r5);
    extended := AppendMember(extended, sep, "resultLimit", Digits(g.resultLimit as nat), r6);
    extended := AppendMember(extended, sep, "memoryBudgetBytes", Digits(g.memoryBudgetBytes as nat), r7);
    extended := AppendMember(extended, sep, "diskBudgetBytes", Digits(g.diskBudgetBytes as nat), r8);
    extended := AppendMember(extended, sep, "telemetryEnabled", T.BoolText(g.telemetryEnabled), r9);
    AppendThen(extended, "\n  }", rest);
    extended := extended + "\n  }";
  }

  method AppendSearch(output: string, x: T.SavedSearch, ghost rest: string) returns (extended: string)
    ensures extended + rest == output + PrintSearch(x, rest)
  {
    hide Member, Quoted, Digits, T.UnixMilliseconds;
    var name := EscapedJsonString(x.name);
    var root := EscapedJsonString(x.root);
    var expression := EscapedJsonString(x.expression);
    ghost var r4 := "}" + rest;
    ghost var r3 := Member(", ", "savedAtUnixMs", Digits(T.UnixMilliseconds(x.savedAt)), r4);
    ghost var r2 := Member(", ", "expression", expression, r3);
    ghost var r1 := Member(", ", "root", root, r2);
    extended := AppendMember(output, "{", "name", name, r1);
    extended := AppendMember(extended, ", ", "root", root, r2);
    extended := AppendMember(extended, ", ", "expression", expression, r3);
    extended := AppendMember(extended, ", ", "savedAtUnixMs", Digits(T.UnixMilliseconds(x.savedAt)), r4);
    AppendThen(extended, "}", rest);
    extended := extended + "}";
  }

  /** What the search loop still has to print from search `i` on. */
  ghost function SearchesFrom(searches: seq<T.SavedSearch>, i: nat, rest: string): string
    requires i <= |searches|
  {
    if i == |searches| then (if i == 0 then "" else "\n") + rest
    else (if i == 0 then "" else ",") + PrintSearchRun(searches[i..], rest)
  }

  lemma SearchesFromStep(searches: seq<T.SavedSearch>, i: nat, rest: string)
    requires i < |searches|
    ensures SearchesFrom(searches, i, rest) ==
      (if i == 0 then "" else ",") + ("\n    " + PrintSearch(searches[i], SearchesFrom(searches, i + 1, rest)))
  {
    hide PrintSearch;
    assert searches[i..][1..] == searches[i + 1..];
  }

  method AppendSearches(output: string, searches: seq<T.SavedSearch>, ghost rest: string) returns (extended: string)
    ensures extended + rest == output + PrintSearches(searches, rest)
  {
    hide PrintSearch;
    ghost var tail := "  ]" + rest;
    extended := output + "[";
    AppendThen(output, "[", SearchesFrom(searches, 0, tail));
    assert searches[0..] == searches;
    assert output + PrintSearches(searches, rest) == extended + SearchesFrom(searches, 0, tail);
    for i := 0 to |searches|
      invariant extended + SearchesFrom(searches, i, tail) == output + PrintSearches(searches, rest)
    {
      hide SearchesFrom, PrintSearches;
      SearchesFromStep(searches, i, tail);
      ghost var next := SearchesFrom(searches, i + 1, tail);
      ghost var printed := "\n    " + PrintSearch(searches[i], next);
      if i > 0 {
        AppendThen(extended, ",", printed);
        extended := extended + ",";
      } else {
        assert "" + printed == printed;
      }
      AppendThen(extended, "\n    ", PrintSearch(searches[i], next));
      extended := extended + "\n    ";
      extended := AppendSearch(extended, searches[i], next);
    }
    if |searches| > 0 {
      AppendThen(extended, "\n", tail);
      extended := extended + "\n";
    } else {
      assert "" + tail == tail;
    }
    AppendThen(extended, "  ]", rest);
    extended := extended + "  ]";
  }

  method WriteSettingsExport(settings: T.GlobalSettings, searches: seq<T.SavedSearch>) returns (output: string)
    ensures output == PrintExport(settings, searches)
    ensures T.ReadExport(output) == Some(T.Payload(T.Normalized(settings), ExportedAll(searches)))
  {
    ExportReadsBack(settings, searches);
    T.NormalizedIsStable(settings);
    hide Member, Quoted, Digits, PrintGlobal, PrintSearches, T.Normalized, T.ReadExport, ExportedAll;
    var normalized := T.Normalized(settings);
    ghost var end := "\n}\n";
    ghost var searchText := " " + PrintSearches(searches, end);
    ghost var r3 := Member(",\n  ", "savedSearches", searchText, "");
    ghost var globalText := " " + PrintGlobal(normalized, r3);
    ghost var r2 := Member(",\n  ", "global", globalText, "");
    ghost var r1 := Member(",\n  ", "version", Digits(1), r2);
    var format := EscapedJsonString("uburu-settings-export");
    output := AppendMember("", "{\n  ", "format", format, r1);
    output := AppendMember(output, ",\n  ", "version", Digits(1), r2);
    output := AppendOpenMember(output, ",\n  ", "global", PrintGlobal(normalized, r3));
    output := AppendGlobal(output, normalized, r3);
    output := AppendOpenMember(output, ",\n  ", "savedSearches", PrintSearches(searches, end));
    output := AppendSearches(output, searches, end);
    output := output + "\n}\n";
  }

  /** output += separator, quoted key, colon and a space; the value comes next. */
  method AppendOpenMember(output: string, sep: string, key: string, ghost value: string) returns (extended: string)
    ensures extended + value == output + Member(sep, key, " " + value, "")
  {
    var quoted := EscapedJsonString(key);
    extended := output + sep + quoted + ": ";
    assert extended + value == output + (sep + Quoted(key) + ":" + (" " + value) + "");
  }

  /** Exporting one store and importing into another transfers the settings. */
  lemma ImportTransfersSettings(source: P.Values, target: P.Values, searches: seq<T.SavedSearch>)
    ensures var payload := Reimported(P.LoadedGlobal(source), searches);
      payload.Some? && payload.value.searches == ExportedAll(searches)
      && P.LoadedGlobal(P.SavedGlobal(target, payload.value.global)) == P.LoadedGlobal(source)
  {
    hide Reimported, P.SavedGlobal, P.LoadedGlobal, ExportedAll;
    var settings := P.LoadedGlobal(source);
    ExportReadsBack(settings, searches);
    P.LoadedIsNormalized(source);
    P.SavedGlobalLoadsBack(target, settings);
  }
}
