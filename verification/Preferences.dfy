/**
 Settings kept as text preferences, one key per setting, globally and per
 repository: what saving and then loading gives.
 */
module PreferenceStorage {
  import opened Optional
  import opened Decimal
  import opened SettingsText

  datatype GlobalKey = SchemaVersion | Theme | Language | Threads | FileSize | ResultLimit | Memory | Disk | Telemetry

  datatype RepositoryKey =
    | RepoSchemaVersion | FriendlyName | RepoThreads | RepoFileSize | RepoResultLimit
    | RepoMemory | RepoDisk | RespectGitignore | IncludeHidden | Extensions

  function GlobalName(k: GlobalKey): string {
    match k
    case SchemaVersion => "global.schemaVersion"
    case Theme => "global.themeMode"
    case Language => "global.language"
    case Threads => "global.maximumThreadCount"
    case FileSize => "global.maximumFileSizeBytes"
    case ResultLimit => "global.resultLimit"
    case Memory => "global.memoryBudgetBytes"
    case Disk => "global.diskBudgetBytes"
    case Telemetry => "global.telemetryEnabled"
  }

  function RepositoryName(k: RepositoryKey): string {
    match k
    case RepoSchemaVersion => "repository.schemaVersion"
    case FriendlyName => "repository.friendlyName"
    case RepoThreads => "repository.maximumThreadCount"
    case RepoFileSize => "repository.maximumFileSizeBytes"
    case RepoResultLimit => "repository.resultLimit"
    case RepoMemory => "repository.memoryBudgetBytes"
    case RepoDisk => "repository.diskBudgetBytes"
    case RespectGitignore => "repository.respectGitignore"
    case IncludeHidden => "repository.includeHiddenFiles"
    case Extensions => "repository.relevantExtensions"
  }

  function GlobalLength(k: GlobalKey): nat {
    match k
    case SchemaVersion => 20 case Theme => 16 case Language => 15 case Threads => 25 case FileSize => 27
    case ResultLimit => 18 case Memory => 24 case Disk => 22 case Telemetry => 23
  }

  /** Length and first letter after the prefix tell the repository keys apart. */
  function RepositoryMark(k: RepositoryKey): (nat, char) {
    match k
    case RepoSchemaVersion => (24, 's') case FriendlyName => (23, 'f') case RepoThreads => (29, 'm')
    case RepoFileSize => (31, 'm') case RepoResultLimit => (22, 'r') case RepoMemory => (28, 'm')
    case RepoDisk => (26, 'd') case RespectGitignore => (27, 'r') case IncludeHidden => (29, 'i')
    case Extensions => (29, 'r')
  }

  lemma GlobalNamesDistinct()
    ensures forall a, b :: GlobalName(a) == GlobalName(b) ==> a == b
  {
    forall k ensures |GlobalName(k)| == GlobalLength(k) {}
    hide GlobalName;
  }

  lemma RepositoryNamesDistinct()
    ensures forall a, b :: RepositoryName(a) == RepositoryName(b) ==> a == b
  {
    forall k ensures |RepositoryName(k)| > 11 && (|RepositoryName(k)|, RepositoryName(k)[11]) == RepositoryMark(k) {}
    hide RepositoryName;
  }

  // ---- The stored values ------------------------------------------------------------------

  /** Preferences by owner (None for the global ones) and name. */
  type Values = map<(Option<string>, string), string>

  function Get(values: Values, owner: Option<string>, name: string): Option<string> {
    if (owner, name) in values then Some(values[(owner, name)]) else None
  }

  function Put(values: Values, owner: Option<string>, name: string, text: string): Values {
    values[(owner, name) := text]
  }

  function PutIf(values: Values, owner: Option<string>, name: string, text: Option<string>): Values {
    match text case Some(t) => Put(values, owner, name, t) case None => values
  }

  function IntText(n: Signed): string {
    if n < 0 then "-" + Digits((0 - n as int) as nat) else Digits(n as nat)
  }

  /** from_chars on int: an optional minus sign, then digits. */
  function ParseInt(s: string): Option<Signed> {
    if s != "" && s[0] == '-' then
      var value :- Parse(s[1..], 0x8000_0000);
      Some((0 - value as int) as Signed)
    else
      var value :- Parse(s, 0x7FFF_FFFF);
      Some(value as Signed)
  }

  function ParseUnsigned(s: string): Option<Unsigned> {
    var value :- Parse(s, UINT64_MAX);
    Some(value as Unsigned)
  }

  function UnsignedText(n: Unsigned): string { Digits(n as nat) }

  function ParseBool(s: string): bool { s == "true" || s == "1" }

  function ParseOptionalBool(s: string): Option<bool> {
    if s == "true" || s == "1" then Some(true) else if s == "false" || s == "0" then Some(false) else None
  }

  lemma UnsignedTextParses(n: Unsigned)
    ensures ParseUnsigned(UnsignedText(n)) == Some(n)
  {
    ParseDigits(n as nat, UINT64_MAX);
  }

  lemma BoolTextParses(b: bool)
    ensures ParseBool(BoolText(b)) == b && ParseOptionalBool(BoolText(b)) == Some(b)
  {
    assert |"true"| == 4 && |"false"| == 5 && |"1"| == 1;
  }

  // ---- Global settings ----------------------------------------------------------------------

  function SavedGlobal(values: Values, settings: GlobalSettings): Values {
    var n := Normalized(settings);
    var v := Put(values, None, GlobalName(SchemaVersion), IntText(n.schemaVersion));
    var v := Put(v, None, GlobalName(Theme), ThemeText(n.themeMode));
    var v := Put(v, None, GlobalName(Language), LanguageText(n.language));
    var v := Put(v, None, GlobalName(Threads), UnsignedText(n.maximumThreadCount));
    var v := Put(v, None, GlobalName(FileSize), UnsignedText(n.maximumFileSizeBytes));
    var v := Put(v, None, GlobalName(ResultLimit), UnsignedText(n.resultLimit));
    var v := Put(v, None, GlobalName(Memory), UnsignedText(n.memoryBudgetBytes));
    var v := Put(v, None, GlobalName(Disk), UnsignedText(n.diskBudgetBytes));
    Put(v, None, GlobalName(Telemetry), BoolText(n.telemetryEnabled))
  }

  function UnsignedOr(text: Option<string>, fallback: Unsigned): Unsigned {
    match text
    case None => fallback
    case Some(s) => match ParseUnsigned(s) case Some(n) => n case None => fallback
  }

  function LoadedGlobal(values: Values): GlobalSettings {
    var d := DEFAULTS;
    Normalized(GlobalSettings(
      match Get(values, None, GlobalName(SchemaVersion)) {
        case Some(s) => (match ParseInt(s) case Some(n) => n case None => 1)
        case None => d.schemaVersion },
      match Get(values, None, GlobalName(Theme)) { case Some(s) => ThemeOf(s) case None => d.themeMode },
      match Get(values, None, GlobalName(Language)) { case Some(s) => LanguageOf(s) case None => d.language },
      UnsignedOr(Get(values, None, GlobalName(Threads)), d.maximumThreadCount),
      UnsignedOr(Get(values, None, GlobalName(FileSize)), d.maximumFileSizeBytes),
      UnsignedOr(Get(values, None, GlobalName(ResultLimit)), d.resultLimit),
      UnsignedOr(Get(values, None, GlobalName(Memory)), d.memoryBudgetBytes),
      UnsignedOr(Get(values, None, GlobalName(Disk)), d.diskBudgetBytes),
      match Get(values, None, GlobalName(Telemetry)) { case Some(s) => ParseBool(s) case None => d.telemetryEnabled }))
  }

  /** Loading gives settings within the limits, whatever the store holds. */
  lemma LoadedIsNormalized(values: Values)
    ensures Normalized(LoadedGlobal(values)) == LoadedGlobal(values)
  {
    hide Get, ParseInt, UnsignedOr, ParseBool, ThemeOf, LanguageOf, GlobalName;
  }

  /** From an empty store: automatic threads and sizes, ten thousand results, no telemetry. */
  lemma EmptyStoreLoadsDefaults()
    ensures LoadedGlobal(map[]) == GlobalSettings(1, System, PtBr, 0, 0, 10_000, 0, 0, false)
  {
    hide ParseInt, UnsignedOr, ParseBool, ThemeOf, LanguageOf, GlobalName;
    NothingStored();
  }

  lemma NothingStored()
    ensures forall k :: Get(map[], None, GlobalName(k)) == None
    ensures forall d :: UnsignedOr(None, d) == d
  {}

  /** The text a key is saved with. */
  function GlobalText(n: GlobalSettings, k: GlobalKey): string {
    match k
    case SchemaVersion => IntText(n.schemaVersion)
    case Theme => ThemeText(n.themeMode)
    case Language => LanguageText(n.language)
    case Threads => UnsignedText(n.maximumThreadCount)
    case FileSize => UnsignedText(n.maximumFileSizeBytes)
    case ResultLimit => UnsignedText(n.resultLimit)
    case Memory => UnsignedText(n.memoryBudgetBytes)
    case Disk => UnsignedText(n.diskBudgetBytes)
    case Telemetry => BoolText(n.telemetryEnabled)
  }

  lemma SavedGlobalGet(values: Values, settings: GlobalSettings, k: GlobalKey)
    ensures Get(SavedGlobal(values, settings), None, GlobalName(k)) == Some(GlobalText(Normalized(settings), k))
    ensures forall id, name :: Get(SavedGlobal(values, settings), Some(id), name) == Get(values, Some(id), name)
  {
    hide GlobalName, ThemeText, LanguageText, BoolText, UnsignedText, IntText, Normalized, Put, Get;
    var n := Normalized(settings);
    var v := GlobalStep(values, SchemaVersion, IntText(n.schemaVersion), k);
    v := GlobalStep(v, Theme, ThemeText(n.themeMode), k);
    v := GlobalStep(v, Language, LanguageText(n.language), k);
    v := GlobalStep(v, Threads, UnsignedText(n.maximumThreadCount), k);
    v := GlobalStep(v, FileSize, UnsignedText(n.maximumFileSizeBytes), k);
    v := GlobalStep(v, ResultLimit, UnsignedText(n.resultLimit), k);
    v := GlobalStep(v, Memory, UnsignedText(n.memoryBudgetBytes), k);
    v := GlobalStep(v, Disk, UnsignedText(n.diskBudgetBytes), k);
    v := GlobalStep(v, Telemetry, BoolText(n.telemetryEnabled), k);
  }

  /** One save, what it does to key `k`, and that it touches no repository. */
  lemma GlobalStep(values: Values, key: GlobalKey, text: string, k: GlobalKey) returns (next: Values)
    ensures next == Put(values, None, GlobalName(key), text)
    ensures Get(next, None, GlobalName(k)) == if key == k then Some(text) else Get(values, None, GlobalName(k))
    ensures forall id, name :: Get(next, Some(id), name) == Get(values, Some(id), name)
  {
    GlobalNamesDistinct();
    hide GlobalName;
    next := Put(values, None, GlobalName(key), text);
  }

  /** Saving and then loading gives the normalized settings, whatever was stored
      before, and leaves every repository's preferences alone. */
  lemma SavedGlobalLoadsBack(values: Values, settings: GlobalSettings)
    ensures LoadedGlobal(SavedGlobal(values, settings)) == Normalized(settings)
    ensures forall id, name :: Get(SavedGlobal(values, settings), Some(id), name) == Get(values, Some(id), name)
  {
    hide GlobalName, ThemeOf, ThemeText, LanguageOf, LanguageText, BoolText, ParseBool, ParseUnsigned, UnsignedText,
         ParseInt, IntText, Get, SavedGlobal;
    forall k
      ensures Get(SavedGlobal(values, settings), None, GlobalName(k)) == Some(GlobalText(Normalized(settings), k))
    {
      SavedGlobalGet(values, settings, k);
    }
    SavedGlobalGet(values, settings, Theme);
    var n := Normalized(settings);
    NormalizedIsStable(settings);
    EnumTextsReadBack(n.themeMode, n.language);
    BoolTextParses(n.telemetryEnabled);
    UnsignedTextParses(n.maximumThreadCount);
    UnsignedTextParses(n.maximumFileSizeBytes);
    UnsignedTextParses(n.resultLimit);
    UnsignedTextParses(n.memoryBudgetBytes);
    UnsignedTextParses(n.diskBudgetBytes);
  }

  // ---- Repository settings -------------------------------------------------------------------

  datatype RepositorySettings = RepositorySettings(
    repositoryId: string,
    schemaVersion: Signed,
    friendlyName: Option<string>,
    maximumThreadCount: Option<Unsigned>,
    maximumFileSizeBytes: Option<Unsigned>,
    resultLimit: Option<Unsigned>,
    memoryBudgetBytes: Option<Unsigned>,
    diskBudgetBytes: Option<Unsigned>,
    respectGitignore: Option<bool>,
    includeHiddenFiles: Option<bool>,
    relevantExtensions: Option<string>)

  function LimitedIf(value: Option<Unsigned>, maximum: Unsigned): Option<Unsigned> {
    match value case Some(n) => Some(Limited(n, maximum)) case None => None
  }

  function NonZero(value: Option<Unsigned>): Option<Unsigned> { if value == Some(0) then None else value }

  function NormalizedRepository(s: RepositorySettings): RepositorySettings {
    s.(schemaVersion := 1,
       maximumThreadCount := LimitedIf(s.maximumThreadCount, 256),
       maximumFileSizeBytes := LimitedIf(s.maximumFileSizeBytes, 0x100_0000_0000),
       memoryBudgetBytes := LimitedIf(s.memoryBudgetBytes, 0x100_0000_0000),
       diskBudgetBytes := LimitedIf(s.diskBudgetBytes, 0x1000_0000_0000),
       resultLimit := LimitedIf(NonZero(s.resultLimit), 1000000))
  }

  function UnsignedTextIf(value: Option<Unsigned>): Option<string> {
    match value case Some(n) => Some(UnsignedText(n)) case None => None
  }

  function BoolTextIf(value: Option<bool>): Option<string> {
    match value case Some(b) => Some(BoolText(b)) case None => None
  }

  /** Saving writes the options that are set; it never removes a preference. */
  function SavedRepository(values: Values, settings: RepositorySettings): Values {
    var n := NormalizedRepository(settings);
    var owner := Some(settings.repositoryId);
    var v := Put(values, owner, RepositoryName(RepoSchemaVersion), IntText(n.schemaVersion));
    var v := PutIf(v, owner, RepositoryName(FriendlyName), n.friendlyName);
    var v := PutIf(v, owner, RepositoryName(RepoThreads), UnsignedTextIf(n.maximumThreadCount));
    var v := PutIf(v, owner, RepositoryName(RepoFileSize), UnsignedTextIf(n.maximumFileSizeBytes));
    var v := PutIf(v, owner, RepositoryName(RepoResultLimit), UnsignedTextIf(n.resultLimit));
    var v := PutIf(v, owner, RepositoryName(RepoMemory), UnsignedTextIf(n.memoryBudgetBytes));
    var v := PutIf(v, owner, RepositoryName(RepoDisk), UnsignedTextIf(n.diskBudgetBytes));
    var v := PutIf(v, owner, RepositoryName(RespectGitignore), BoolTextIf(n.respectGitignore));
    var v := PutIf(v, owner, RepositoryName(IncludeHidden), BoolTextIf(n.includeHiddenFiles));
    PutIf(v, owner, RepositoryName(Extensions), n.relevantExtensions)
  }

  function UnsignedIf(text: Option<string>): Option<Unsigned> {
    match text case Some(s) => ParseUnsigned(s) case None => None
  }

  function BoolIf(text: Option<string>): Option<bool> {
    match text case Some(s) => ParseOptionalBool(s) case None => None
  }

  function LoadedRepository(values: Values, id: string): RepositorySettings {
    NormalizedRepository(StoredRepository(values, id))
  }

  /** The stored options as they are read, before normalization. */
  function StoredRepository(values: Values, id: string): RepositorySettings {
    RepositorySettings(
      id,
      match Get(values, Some(id), RepositoryName(RepoSchemaVersion)) {
        case Some(s) => (match ParseInt(s) case Some(n) => n case None => 1)
        case None => 1 },
      Get(values, Some(id), RepositoryName(FriendlyName)),
      UnsignedIf(Get(values, Some(id), RepositoryName(RepoThreads))),
      UnsignedIf(Get(values, Some(id), RepositoryName(RepoFileSize))),
      UnsignedIf(Get(values, Some(id), RepositoryName(RepoResultLimit))),
      UnsignedIf(Get(values, Some(id), RepositoryName(RepoMemory))),
      UnsignedIf(Get(values, Some(id), RepositoryName(RepoDisk))),
      BoolIf(Get(values, Some(id), RepositoryName(RespectGitignore))),
      BoolIf(Get(values, Some(id), RepositoryName(IncludeHidden))),
      Get(values, Some(id), RepositoryName(Extensions)))
  }

  /** The text a repository key is saved with, if it is. */
  function RepositoryText(n: RepositorySettings, k: RepositoryKey): Option<string> {
    match k
    case RepoSchemaVersion => Some(IntText(n.schemaVersion))
    case FriendlyName => n.friendlyName
    case RepoThreads => UnsignedTextIf(n.maximumThreadCount)
    case RepoFileSize => UnsignedTextIf(n.maximumFileSizeBytes)
    case RepoResultLimit => UnsignedTextIf(n.resultLimit)
    case RepoMemory => UnsignedTextIf(n.memoryBudgetBytes)
    case RepoDisk => UnsignedTextIf(n.diskBudgetBytes)
    case RespectGitignore => BoolTextIf(n.respectGitignore)
    case IncludeHidden => BoolTextIf(n.includeHiddenFiles)
    case Extensions => n.relevantExtensions
  }

  function OrElse<T>(first: Option<T>, second: Option<T>): Option<T> {
    if first.Some? then first else second
  }

  lemma SavedRepositoryGet(values: Values, settings: RepositorySettings, k: RepositoryKey)
    ensures var n, owner := NormalizedRepository(settings), Some(settings.repositoryId);
      Get(SavedRepository(values, settings), owner, RepositoryName(k)) ==
      OrElse(RepositoryText(n, k), Get(values, owner, RepositoryName(k)))
  {
    hide RepositoryName, BoolTextIf, UnsignedTextIf, IntText, NormalizedRepository, Put, PutIf, Get;
    RepositoryNamesDistinct();
    var n, owner := NormalizedRepository(settings), Some(settings.repositoryId);
    var name := RepositoryName(k);
    var v0 := Put(values, owner, RepositoryName(RepoSchemaVersion), IntText(n.schemaVersion));
    PutGet(values, owner, RepositoryName(RepoSchemaVersion), IntText(n.schemaVersion), name);
    var v1 := Step(v0, owner, FriendlyName, n.friendlyName, k);
    var v2 := Step(v1, owner, RepoThreads, UnsignedTextIf(n.maximumThreadCount), k);
    var v3 := Step(v2, owner, RepoFileSize, UnsignedTextIf(n.maximumFileSizeBytes), k);
    var v4 := Step(v3, owner, RepoResultLimit, UnsignedTextIf(n.resultLimit), k);
    var v5 := Step(v4, owner, RepoMemory, UnsignedTextIf(n.memoryBudgetBytes), k);
    var v6 := Step(v5, owner, RepoDisk, UnsignedTextIf(n.diskBudgetBytes), k);
    var v7 := Step(v6, owner, RespectGitignore, BoolTextIf(n.respectGitignore), k);
    var v8 := Step(v7, owner, IncludeHidden, BoolTextIf(n.includeHiddenFiles), k);
    var v9 := Step(v8, owner, Extensions, n.relevantExtensions, k);
  }

  lemma PutGet(values: Values, owner: Option<string>, name: string, text: string, other: string)
    ensures Get(Put(values, owner, name, text), owner, other) ==
      if name == other then Some(text) else Get(values, owner, other)
  {}

  /** One conditional save and what it does to key `k`. */
  lemma Step(values: Values, owner: Option<string>, key: RepositoryKey, text: Option<string>, k: RepositoryKey)
      returns (next: Values)
    ensures next == PutIf(values, owner, RepositoryName(key), text)
    ensures Get(next, owner, RepositoryName(k)) ==
      if key == k then OrElse(text, Get(values, owner, RepositoryName(k))) else Get(values, owner, RepositoryName(k))
  {
    RepositoryNamesDistinct();
    hide RepositoryName;
    next := PutIf(values, owner, RepositoryName(key), text);
  }

  /** The options of `top`, with those of `below` where `top` leaves one unset. */
  function Overlaid(top: RepositorySettings, below: RepositorySettings): RepositorySettings {
    top.(friendlyName := OrElse(top.friendlyName, below.friendlyName),
         maximumThreadCount := OrElse(top.maximumThreadCount, below.maximumThreadCount),
         maximumFileSizeBytes := OrElse(top.maximumFileSizeBytes, below.maximumFileSizeBytes),
         resultLimit := OrElse(top.resultLimit, below.resultLimit),
         memoryBudgetBytes := OrElse(top.memoryBudgetBytes, below.memoryBudgetBytes),
         diskBudgetBytes := OrElse(top.diskBudgetBytes, below.diskBudgetBytes),
         respectGitignore := OrElse(top.respectGitignore, below.respectGitignore),
         includeHiddenFiles := OrElse(top.includeHiddenFiles, below.includeHiddenFiles),
         relevantExtensions := OrElse(top.relevantExtensions, below.relevantExtensions))
  }

  /** Every option that is set in `below` is also set in `top`. */
  predicate Covers(top: RepositorySettings, below: RepositorySettings) {
    && (below.friendlyName.Some? ==> top.friendlyName.Some?)
    && (below.maximumThreadCount.Some? ==> top.maximumThreadCount.Some?)
    && (below.maximumFileSizeBytes.Some? ==> top.maximumFileSizeBytes.Some?)
    && (below.resultLimit.Some? ==> top.resultLimit.Some?)
    && (below.memoryBudgetBytes.Some? ==> top.memoryBudgetBytes.Some?)
    && (below.diskBudgetBytes.Some? ==> top.diskBudgetBytes.Some?)
    && (below.respectGitignore.Some? ==> top.respectGitignore.Some?)
    && (below.includeHiddenFiles.Some? ==> top.includeHiddenFiles.Some?)
    && (below.relevantExtensions.Some? ==> top.relevantExtensions.Some?)
  }

  lemma UnsignedIfOrElse(n: Option<Unsigned>, below: Option<string>)
    ensures UnsignedIf(OrElse(UnsignedTextIf(n), below)) == OrElse(n, UnsignedIf(below))
  {
    if n.Some? { UnsignedTextParses(n.value); }
  }

  lemma BoolIfOrElse(b: Option<bool>, below: Option<string>)
    ensures BoolIf(OrElse(BoolTextIf(b), below)) == OrElse(b, BoolIf(below))
  {
    if b.Some? { BoolTextParses(b.value); }
  }

  lemma LimitedOrElse(n: Option<Unsigned>, below: Option<Unsigned>, maximum: Unsigned)
    ensures LimitedIf(OrElse(LimitedIf(n, maximum), below), maximum)
      == OrElse(LimitedIf(n, maximum), LimitedIf(below, maximum))
    ensures maximum > 0 ==>
      LimitedIf(NonZero(OrElse(LimitedIf(NonZero(n), maximum), below)), maximum) ==
      OrElse(LimitedIf(NonZero(n), maximum), LimitedIf(NonZero(below), maximum))
  {}

  lemma VersionIsOne(settings: RepositorySettings)
    ensures NormalizedRepository(settings).schemaVersion == 1
    ensures NormalizedRepository(settings).repositoryId == settings.repositoryId
  {}

  lemma VersionLoads(below: Option<string>)
    ensures OrElse(Some(IntText(1)), below) == Some(IntText(1)) && ParseInt(IntText(1)) == Some(1)
  {
    ParseDigits(1, 0x7FFF_FFFF);
  }

  /** What is read after saving: the saved options over those stored before. */
  lemma SavedRepositoryIsStored(values: Values, settings: RepositorySettings)
    ensures StoredRepository(SavedRepository(values, settings), settings.repositoryId) ==
      Overlaid(NormalizedRepository(settings), StoredRepository(values, settings.repositoryId))
  {
    hide RepositoryName, SavedRepository, NormalizedRepository, Get, ParseInt, IntText, UnsignedIf, UnsignedTextIf,
         BoolIf, BoolTextIf, OrElse;
    var id, n := settings.repositoryId, NormalizedRepository(settings);
    VersionIsOne(settings);
    VersionLoads(Get(values, Some(id), RepositoryName(RepoSchemaVersion)));
    SavedRepositoryGet(values, settings, RepoSchemaVersion);
    SavedRepositoryGet(values, settings, FriendlyName);
    SavedRepositoryGet(values, settings, Extensions);
    UnsignedField(values, settings, RepoThreads, n.maximumThreadCount);
    UnsignedField(values, settings, RepoFileSize, n.maximumFileSizeBytes);
    UnsignedField(values, settings, RepoResultLimit, n.resultLimit);
    UnsignedField(values, settings, RepoMemory, n.memoryBudgetBytes);
    UnsignedField(values, settings, RepoDisk, n.diskBudgetBytes);
    BoolField(values, settings, RespectGitignore, n.respectGitignore);
    BoolField(values, settings, IncludeHidden, n.includeHiddenFiles);
  }

  lemma UnsignedField(values: Values, settings: RepositorySettings, k: RepositoryKey, value: Option<Unsigned>)
    requires RepositoryText(NormalizedRepository(settings), k) == UnsignedTextIf(value)
    ensures var owner := Some(settings.repositoryId);
      UnsignedIf(Get(SavedRepository(values, settings), owner, RepositoryName(k)))
        == OrElse(value, UnsignedIf(Get(values, owner, RepositoryName(k))))
  {
    hide RepositoryName, SavedRepository, NormalizedRepository, Get, UnsignedIf, UnsignedTextIf, OrElse;
    SavedRepositoryGet(values, settings, k);
    UnsignedIfOrElse(value, Get(values, Some(settings.repositoryId), RepositoryName(k)));
  }

  lemma BoolField(values: Values, settings: RepositorySettings, k: RepositoryKey, value: Option<bool>)
    requires RepositoryText(NormalizedRepository(settings), k) == BoolTextIf(value)
    ensures var owner := Some(settings.repositoryId);
      BoolIf(Get(SavedRepository(values, settings), owner, RepositoryName(k)))
        == OrElse(value, BoolIf(Get(values, owner, RepositoryName(k))))
  {
    hide RepositoryName, SavedRepository, NormalizedRepository, Get, BoolIf, BoolTextIf, OrElse;
    SavedRepositoryGet(values, settings, k);
    BoolIfOrElse(value, Get(values, Some(settings.repositoryId), RepositoryName(k)));
  }

  /** Normalizing after overlaying changes nothing on top and limits what shows below. */
  lemma NormalizedOverlaid(settings: RepositorySettings, below: RepositorySettings)
    ensures var n := NormalizedRepository(settings);
      NormalizedRepository(Overlaid(n, below)) == Overlaid(n, NormalizedRepository(below))
  {
    hide OrElse, LimitedIf, NonZero;
    LimitedOrElse(settings.maximumThreadCount, below.maximumThreadCount, 256);
    LimitedOrElse(settings.maximumFileSizeBytes, below.maximumFileSizeBytes, 0x100_0000_0000);
    LimitedOrElse(settings.resultLimit, below.resultLimit, 1000000);
    LimitedOrElse(settings.memoryBudgetBytes, below.memoryBudgetBytes, 0x100_0000_0000);
    LimitedOrElse(settings.diskBudgetBytes, below.diskBudgetBytes, 0x1000_0000_0000);
  }

  /** Saving and then loading gives the saved options over the ones stored before. */
  lemma SavedRepositoryLoads(values: Values, settings: RepositorySettings)
    ensures LoadedRepository(SavedRepository(values, settings), settings.repositoryId) ==
      Overlaid(NormalizedRepository(settings), LoadedRepository(values, settings.repositoryId))
  {
    hide StoredRepository, SavedRepository, NormalizedRepository, Overlaid;
    SavedRepositoryIsStored(values, settings);
    NormalizedOverlaid(settings, StoredRepository(values, settings.repositoryId));
  }

  /** Saved repository settings load back unchanged exactly when every option that
      was already stored is also set in what is saved: saving cannot clear one. */
  lemma RepositoryLoadsBackExactlyWhen(values: Values, settings: RepositorySettings)
    ensures LoadedRepository(SavedRepository(values, settings), settings.repositoryId) == NormalizedRepository(settings)
      <==> Covers(NormalizedRepository(settings), LoadedRepository(values, settings.repositoryId))
  {
    SavedRepositoryLoads(values, settings);
    hide LoadedRepository, SavedRepository, NormalizedRepository;
  }

  /** Whatever option is left unset, saving keeps the stored one. */
  lemma SavingCannotClear(values: Values, settings: RepositorySettings)
    ensures var before := LoadedRepository(values, settings.repositoryId);
      var after := LoadedRepository(SavedRepository(values, settings), settings.repositoryId);
      && (settings.friendlyName.None? ==> after.friendlyName == before.friendlyName)
      && (settings.maximumThreadCount.None? ==> after.maximumThreadCount == before.maximumThreadCount)
      && (settings.maximumFileSizeBytes.None? ==> after.maximumFileSizeBytes == before.maximumFileSizeBytes)
      && (settings.resultLimit.None? ==> after.resultLimit == before.resultLimit)
      && (settings.memoryBudgetBytes.None? ==> after.memoryBudgetBytes == before.memoryBudgetBytes)
      && (settings.diskBudgetBytes.None? ==> after.diskBudgetBytes == before.diskBudgetBytes)
      && (settings.respectGitignore.None? ==> after.respectGitignore == before.respectGitignore)
      && (settings.includeHiddenFiles.None? ==> after.includeHiddenFiles == before.includeHiddenFiles)
      && (settings.relevantExtensions.None? ==> after.relevantExtensions == before.relevantExtensions)
  {
    hide LoadedRepository, SavedRepository;
    SavedRepositoryLoads(values, settings);
  }

  // ---- The service over a mutable store ----------------------------------------------------------

  class PreferenceStore {
    var values: Values

    constructor ()
      ensures values == map[]
    {
      values := map[];
    }

    method SetPreference(owner: Option<string>, name: string, text: string)
      modifies this
      ensures values == Put(old(values), owner, name, text)
    {
      values := values[(owner, name) := text];
    }

    method SaveGlobalSettings(settings: GlobalSettings)
      modifies this
      ensures values == SavedGlobal(old(values), settings)
    {
      hide Put, IntText, ThemeText, LanguageText, UnsignedText, BoolText, GlobalName, Normalized;
      var n := Normalized(settings);
      SetPreference(None, GlobalName(SchemaVersion), IntText(n.schemaVersion));
      SetPreference(None, GlobalName(Theme), ThemeText(n.themeMode));
      SetPreference(None, GlobalName(Language), LanguageText(n.language));
      SetPreference(None, GlobalName(Threads), UnsignedText(n.maximumThreadCount));
      SetPreference(None, GlobalName(FileSize), UnsignedText(n.maximumFileSizeBytes));
      SetPreference(None, GlobalName(ResultLimit), UnsignedText(n.resultLimit));
      SetPreference(None, GlobalName(Memory), UnsignedText(n.memoryBudgetBytes));
      SetPreference(None, GlobalName(Disk), UnsignedText(n.diskBudgetBytes));
      SetPreference(None, GlobalName(Telemetry), BoolText(n.telemetryEnabled));
    }

    method LoadGlobalSettings() returns (settings: GlobalSettings)
      ensures settings == LoadedGlobal(values)
    {
      hide Get, GlobalName, ParseInt, UnsignedOr, ThemeOf, LanguageOf, ParseBool, Normalized;
      settings := DEFAULTS;
      var text := Get(values, None, GlobalName(SchemaVersion));
      if text.Some? {
        settings := settings.(schemaVersion := match ParseInt(text.value) case Some(n) => n case None => 1);
      }
      text := Get(values, None, GlobalName(Theme));
      if text.Some? { settings := settings.(themeMode := ThemeOf(text.value)); }
      text := Get(values, None, GlobalName(Language));
      if text.Some? { settings := settings.(language := LanguageOf(text.value)); }
      text := Get(values, None, GlobalName(Threads));
      settings := settings.(maximumThreadCount := UnsignedOr(text, settings.maximumThreadCount));
      text := Get(values, None, GlobalName(FileSize));
      settings := settings.(maximumFileSizeBytes := UnsignedOr(text, settings.maximumFileSizeBytes));
      text := Get(values, None, GlobalName(ResultLimit));
      settings := settings.(resultLimit := UnsignedOr(text, settings.resultLimit));
      text := Get(values, None, GlobalName(Memory));
      settings := settings.(memoryBudgetBytes := UnsignedOr(text, settings.memoryBudgetBytes));
      text := Get(values, None, GlobalName(Disk));
      settings := settings.(diskBudgetBytes := UnsignedOr(text, settings.diskBudgetBytes));
      text := Get(values, None, GlobalName(Telemetry));
      if text.Some? { settings := settings.(telemetryEnabled := ParseBool(text.value)); }
      settings := Normalized(settings);
    }

    method SetPreferenceIf(owner: Option<string>, name: string, text: Option<string>)
      modifies this
      ensures values == PutIf(old(values), owner, name, text)
    {
      if text.Some? { SetPreference(owner, name, text.value); }
    }

    method SaveRepositorySettings(settings: RepositorySettings)
      modifies this
      ensures values == SavedRepository(old(values), settings)
    {
      hide Put, PutIf, IntText, UnsignedTextIf, BoolTextIf, RepositoryName, NormalizedRepository;
      var n := NormalizedRepository(settings);
      var owner := Some(settings.repositoryId);
      SetPreference(owner, RepositoryName(RepoSchemaVersion), IntText(n.schemaVersion));
      SetPreferenceIf(owner, RepositoryName(FriendlyName), n.friendlyName);
      SetPreferenceIf(owner, RepositoryName(RepoThreads), UnsignedTextIf(n.maximumThreadCount));
      SetPreferenceIf(owner, RepositoryName(RepoFileSize), UnsignedTextIf(n.maximumFileSizeBytes));
      SetPreferenceIf(owner, RepositoryName(RepoResultLimit), UnsignedTextIf(n.resultLimit));
      SetPreferenceIf(owner, RepositoryName(RepoMemory), UnsignedTextIf(n.memoryBudgetBytes));
      SetPreferenceIf(owner, RepositoryName(RepoDisk), UnsignedTextIf(n.diskBudgetBytes));
      SetPreferenceIf(owner, RepositoryName(RespectGitignore), BoolTextIf(n.respectGitignore));
      SetPreferenceIf(owner, RepositoryName(IncludeHidden), BoolTextIf(n.includeHiddenFiles));
      SetPreferenceIf(owner, RepositoryName(Extensions), n.relevantExtensions);
    }

    method LoadRepositorySettings(id: string) returns (settings: RepositorySettings)
      ensures settings == LoadedRepository(values, id)
    {
      hide Get, RepositoryName, ParseInt, UnsignedIf, BoolIf, NormalizedRepository;
      var owner := Some(id);
      settings := RepositorySettings(id, 1, None, None, None, None, None, None, None, None, None);
      var text := Get(values, owner, RepositoryName(RepoSchemaVersion));
      if text.Some? {
        settings := settings.(schemaVersion := match ParseInt(text.value) case Some(n) => n case None => 1);
      }
      settings := settings.(friendlyName := Get(values, owner, RepositoryName(FriendlyName)));
      settings := settings.(maximumThreadCount := UnsignedIf(Get(values, owner, RepositoryName(RepoThreads))));
      settings := settings.(maximumFileSizeBytes := UnsignedIf(Get(values, owner, RepositoryName(RepoFileSize))));
      settings := settings.(resultLimit := UnsignedIf(Get(values, owner, RepositoryName(RepoResultLimit))));
      settings := settings.(memoryBudgetBytes := UnsignedIf(Get(values, owner, RepositoryName(RepoMemory))));
      settings := settings.(diskBudgetBytes := UnsignedIf(Get(values, owner, RepositoryName(RepoDisk))));
      settings := settings.(respectGitignore := BoolIf(Get(values, owner, RepositoryName(RespectGitignore))));
      settings := settings.(includeHiddenFiles := BoolIf(Get(values, owner, RepositoryName(IncludeHidden))));
      settings := settings.(relevantExtensions := Get(values, owner, RepositoryName(Extensions)));
      settings := NormalizedRepository(settings);
    }
  }
}
