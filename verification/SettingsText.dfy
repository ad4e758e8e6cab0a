/**
 The settings export text: what the writer prints and what the cursor parser
 reads back.  Parsing is specified on the text that is still to be read.
 */
module SettingsText {
  import opened Optional
  import opened Decimal

  // ---- Settings ------------------------------------------------------------------

  newtype Unsigned = x: int | 0 <= x <= 0xFFFF_FFFF_FFFF_FFFF   // size_t and uintmax_t
  newtype Signed = x: int | -0x8000_0000 <= x <= 0x7FFF_FFFF    // int
  newtype Ticks = x: int | -0x8000_0000_0000_0000 <= x <= 0x7FFF_FFFF_FFFF_FFFF  // of the system clock

  const TICKS_PER_MILLISECOND: int := 1_000_000

  datatype ThemeMode = System | Dark | Light
  datatype UiLanguage = PtBr | EnUs

  datatype GlobalSettings = GlobalSettings(
    schemaVersion: Signed,
    themeMode: ThemeMode,
    language: UiLanguage,
    maximumThreadCount: Unsigned,
    maximumFileSizeBytes: Unsigned,
    resultLimit: Unsigned,
    memoryBudgetBytes: Unsigned,
    diskBudgetBytes: Unsigned,
    telemetryEnabled: bool)

  datatype SavedSearch = SavedSearch(name: string, root: string, expression: string, savedAt: Ticks)

  const DEFAULTS := GlobalSettings(1, System, PtBr, 0, 0, 10000, 0, 0, false)

  function Limited(value: Unsigned, maximum: Unsigned): Unsigned {
    if value > maximum then maximum else value
  }

  function Normalized(s: GlobalSettings): GlobalSettings {
    s.(schemaVersion := 1,
       maximumThreadCount := Limited(s.maximumThreadCount, 256),
       maximumFileSizeBytes := Limited(s.maximumFileSizeBytes, 0x100_0000_0000),
       memoryBudgetBytes := Limited(s.memoryBudgetBytes, 0x100_0000_0000),
       diskBudgetBytes := Limited(s.diskBudgetBytes, 0x1000_0000_0000),
       resultLimit := Limited(if s.resultLimit == 0 then 10000 else s.resultLimit, 1000000))
  }

  /** Whole milliseconds since the epoch, none for a time before it. */
  function UnixMilliseconds(t: Ticks): nat { if t < 0 then 0 else t as int / TICKS_PER_MILLISECOND }

  /** The clock's time, at most its last. */
  function FromUnixMilliseconds(ms: Unsigned): Ticks {
    if ms as int > 0x7FFF_FFFF_FFFF_FFFF / TICKS_PER_MILLISECOND then 0x7FFF_FFFF_FFFF_FFFF
    else (ms as int * TICKS_PER_MILLISECOND) as Ticks
  }

  /** An export keeps whole milliseconds; a time before the epoch becomes the epoch. */
  function Exported(s: SavedSearch): SavedSearch {
    s.(savedAt := if s.savedAt < 0 then 0 else s.savedAt - s.savedAt % 1_000_000)
  }

  lemma TimeReadsBack(s: SavedSearch)
    ensures UnixMilliseconds(s.savedAt) <= 0xFFFF_FFFF_FFFF_FFFF
    ensures FromUnixMilliseconds(UnixMilliseconds(s.savedAt) as Unsigned) == Exported(s).savedAt
  {}

  function ThemeText(t: ThemeMode): string {
    match t case System => "system" case Dark => "dark" case Light => "light"
  }

  function ThemeOf(s: string): ThemeMode {
    if s == "dark" then Dark else if s == "light" then Light else System
  }

  function LanguageText(l: UiLanguage): string {
    match l case PtBr => "pt-BR" case EnUs => "en-US"
  }

  function LanguageOf(s: string): UiLanguage {
    if s == "en-US" then EnUs else PtBr
  }

  function BoolText(b: bool): string { if b then "true" else "false" }

  lemma EnumTextsReadBack(t: ThemeMode, l: UiLanguage)
    ensures ThemeOf(ThemeText(t)) == t && LanguageOf(LanguageText(l)) == l
    ensures ThemeOf("system") == System && ThemeOf("dark") == Dark && ThemeOf("light") == Light
    ensures LanguageOf("pt-BR") == PtBr && LanguageOf("en-US") == EnUs
  {
    assert |"dark"| == 4 && |"light"| == 5 && |"system"| == 6;
    assert "pt-BR"[0] == 'p';
  }

  ghost predicate IsLimited(value: Unsigned, maximum: Unsigned, result: Unsigned) {
    (value <= maximum ==> result == value) && (value > maximum ==> result == maximum)
  }

  /** Each size is kept up to its limit and cut to it beyond; no limit for results means
      ten thousand; nothing else changes but the version. */
  lemma NormalizedByField(s: GlobalSettings)
    ensures var n := Normalized(s);
      && IsLimited(s.maximumThreadCount, 256, n.maximumThreadCount)
      && IsLimited(s.maximumFileSizeBytes, 0x100_0000_0000, n.maximumFileSizeBytes)
      && IsLimited(s.memoryBudgetBytes, 0x100_0000_0000, n.memoryBudgetBytes)
      && IsLimited(s.diskBudgetBytes, 0x1000_0000_0000, n.diskBudgetBytes)
      && (s.resultLimit > 0 ==> IsLimited(s.resultLimit, 1_000_000, n.resultLimit))
      && (s.resultLimit == 0 ==> n.resultLimit == 10_000)
      && n.themeMode == s.themeMode && n.language == s.language && n.telemetryEnabled == s.telemetryEnabled
  {}

  /** Normalizing twice is normalizing once, and keeps settings within the limits. */
  lemma NormalizedIsStable(s: GlobalSettings)
    ensures Normalized(Normalized(s)) == Normalized(s) && Normalized(s).schemaVersion == 1
    ensures Normalized(s) == s <==>
      s.schemaVersion == 1 && s.maximumThreadCount <= 256 && s.maximumFileSizeBytes <= 0x100_0000_0000
      && 1 <= s.resultLimit <= 1000000 && s.memoryBudgetBytes <= 0x100_0000_0000
      && s.diskBudgetBytes <= 0x1000_0000_0000
  {
  }

  // ---- The reader, on the remaining text --------------------------------------------

  predicate IsSpace(c: char) { c == ' ' || c == '\n' || c == '\r' || c == '\t' }

  function SkipWhitespace(s: string): (rest: string)
    ensures |rest| <= |s| && (rest != "" ==> !IsSpace(rest[0]))
  {
    if s != "" && IsSpace(s[0]) then SkipWhitespace(s[1..]) else s
  }

  function Expect(s: string, c: char): (rest: Option<string>)
    ensures rest.Some? ==> |rest.value| < |s|
  {
    var t := SkipWhitespace(s);
    if t == "" || t[0] != c then None else Some(t[1..])
  }

  /** The characters of a string after its opening quote. */
  function ReadBody(s: string): (result: Option<(string, string)>)
    ensures result.Some? ==> |result.value.1| < |s|
  {
    if s == "" then None
    else if s[0] == '"' then Some(("", s[1..]))
    else if s[0] != '\\' then
      var (value, rest) :- ReadBody(s[1..]);
      Some(([s[0]] + value, rest))
    else if |s| == 1 then None
    else
      var c :- Unescaped(s[1]);
      var (value, rest) :- ReadBody(s[2..]);
      Some(([c] + value, rest))
  }

  function Unescaped(c: char): Option<char> {
    if c == '"' || c == '\\' || c == '/' then Some(c)
    else if c == 'n' then Some('\n')
    else if c == 'r' then Some('\r')
    else if c == 't' then Some('\t')
    else None
  }

  function ReadString(s: string): (result: Option<(string, string)>)
    ensures result.Some? ==> |result.value.1| < |s|
  {
    var rest :- Expect(s, '"');
    ReadBody(rest)
  }

  function ExpectKey(s: string, key: string): (rest: Option<string>)
    ensures rest.Some? ==> |rest.value| < |s|
  {
    var (actual, t) :- ReadString(s);
    if actual != key then None else Expect(t, ':')
  }

  function ReadUnsigned(s: string): (result: Option<(Unsigned, string)>)
    ensures result.Some? ==> |result.value.1| < |s|
  {
    var t := SkipWhitespace(s);
    var n := DigitSpan(t);
    var value :- Parse(t[..n], UINT64_MAX);
    Some((value as Unsigned, t[n..]))
  }

  function ReadInt(s: string): (result: Option<(Signed, string)>)
    ensures result.Some? ==> |result.value.1| < |s|
  {
    var (value, rest) :- ReadUnsigned(s);
    if value > 0x7FFF_FFFF then None else Some((value as Signed, rest))
  }

  predicate StartsWith(s: string, prefix: string) { prefix <= s }

  function ReadBool(s: string): (result: Option<(bool, string)>)
    ensures result.Some? ==> |result.value.1| < |s|
  {
    var t := SkipWhitespace(s);
    if StartsWith(t, "true") then Some((true, t[4..]))
    else if StartsWith(t, "false") then Some((false, t[5..]))
    else None
  }

  /** expect(open) followed by expectKey(key). */
  function OpenMember(s: string, open: char, key: string): (rest: Option<string>)
    ensures rest.Some? ==> |rest.value| < |s|
  {
    var t :- Expect(s, open);
    ExpectKey(t, key)
  }

  // A member with its value: expect(open), expectKey(key), then the value.

  function TextMember(s: string, open: char, key: string): (result: Option<(string, string)>)
    ensures result.Some? ==> |result.value.1| < |s|
  {
    var t :- OpenMember(s, open, key);
    ReadString(t)
  }

  function NumberMember(s: string, open: char, key: string): (result: Option<(Unsigned, string)>)
    ensures result.Some? ==> |result.value.1| < |s|
  {
    var t :- OpenMember(s, open, key);
    ReadUnsigned(t)
  }

  function IntMember(s: string, open: char, key: string): (result: Option<(Signed, string)>)
    ensures result.Some? ==> |result.value.1| < |s|
  {
    var t :- OpenMember(s, open, key);
    ReadInt(t)
  }

  function BoolMember(s: string, open: char, key: string): (result: Option<(bool, string)>)
    ensures result.Some? ==> |result.value.1| < |s|
  {
    var t :- OpenMember(s, open, key);
    ReadBool(t)
  }

  function ReadGlobal(s: string): Option<(GlobalSettings, string)> {
    var (schemaVersion, s) :- IntMember(s, '{', "schemaVersion");
    var (theme, s) :- TextMember(s, ',', "themeMode");
    var (language, s) :- TextMember(s, ',', "language");
    var (threads, s) :- NumberMember(s, ',', "maximumThreadCount");
    var (fileSize, s) :- NumberMember(s, ',', "maximumFileSizeBytes");
    var (limit, s) :- NumberMember(s, ',', "resultLimit");
    var (memory, s) :- NumberMember(s, ',', "memoryBudgetBytes");
    var (disk, s) :- NumberMember(s, ',', "diskBudgetBytes");
    var (telemetry, s) :- BoolMember(s, ',', "telemetryEnabled");
    var s :- Expect(s, '}');
    Some((Normalized(GlobalSettings(schemaVersion, ThemeOf(theme), LanguageOf(language), threads, fileSize,
                                    limit, memory, disk, telemetry)), s))
  }

  function ReadSearch(s0: string): (result: Option<(SavedSearch, string)>)
    ensures result.Some? ==> |result.value.1| < |s0|
  {
    var (name, s) :- TextMember(s0, '{', "name");
    var (root, s) :- TextMember(s, ',', "root");
    var (expression, s) :- TextMember(s, ',', "expression");
    var (ms, s) :- NumberMember(s, ',', "savedAtUnixMs");
    var s :- Expect(s, '}');
    Some((SavedSearch(name, root, expression, FromUnixMilliseconds(ms)), s))
  }

  /** consume: like expect, but a mismatch only skips the white space. */
  function Consume(s: string, c: char): (result: (bool, string))
    ensures |result.1| <= |s|
  {
    match Expect(s, c)
    case Some(rest) => (true, rest)
    case None => (false, SkipWhitespace(s))
  }

  /** One or more searches separated by commas. */
  function ReadSearchRun(s: string): (result: Option<(seq<SavedSearch>, string)>)
    decreases |s|
  {
    var (first, s1) :- ReadSearch(s);
    var (more, s2) := Consume(s1, ',');
    if !more then Some(([first], s2)) else
      var (others, s3) :- ReadSearchRun(s2);
      Some(([first] + others, s3))
  }

  function ReadSearches(s: string): Option<(seq<SavedSearch>, string)> {
    var s1 :- Expect(s, '[');
    var (empty, s2) := Consume(s1, ']');
    if empty then Some(([], s2)) else
      var (searches, s3) :- ReadSearchRun(s2);
      var s4 :- Expect(s3, ']');
      Some((searches, s4))
  }

  datatype Payload = Payload(global: GlobalSettings, searches: seq<SavedSearch>)

  /** None stands for the thrown invalid_argument. */
  function ReadExport(s: string): Option<Payload> {
    var (format, s) :- TextMember(s, '{', "format");
    if format != "uburu-settings-export" then None else
      var (version, s) :- IntMember(s, ',', "version");
      if version != 1 then None else
        var s :- OpenMember(s, ',', "global");
        var (global, s) :- ReadGlobal(s);
        var s :- OpenMember(s, ',', "savedSearches");
        var (searches, s) :- ReadSearches(s);
        var s :- Expect(s, '}');
        if SkipWhitespace(s) != "" then None else Some(Payload(global, searches))
  }
}
