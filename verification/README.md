# Verified model of Uburu's search core

Uburu is a file-search engine. This project models the parts of its core whose
correctness is a theorem, keeps their imperative shape (classes with fields,
loops, arrays and maps), and proves them against pure specifications.

| file | models |
|---|---|
| `QueueProtocol.dfy`, `BoundedQueue.dfy`, `WorkerPool.dfy` | the bounded queue as a transition system of its critical sections, the class that takes those steps, and the workers that drain it |
| `Sha256Standard.dfy`, `Sha256Constants.dfy`, `Sha256Example.dfy`, `ContentHash.dfy` | FIPS 180-4 SHA-256, what its constants are, its example computed, and the streaming implementation |
| `Decimal.dfy`, `SettingsText.dfy`, `SettingsExport.dfy`, `JsonStandard.dfy`, `JsonReader.dfy`, `SettingsService.dfy`, `Preferences.dfy` | settings export, import, normalization and storage |
| `Glob.dfy`, `GitIgnore.dfy`, `Scanner.dfy` | wildcard matching, ignore rules and the recursive scan of a directory graph |
| `ScanPlaces.dfy`, `ScanRuns.dfy`, `ScanSoundness.dfy`, `ScanExactness.dfy`, `ScanFilters.dfy`, `ScanCounters.dfy`, `ScanPruning.dfy`, `ScanTrees.dfy`, `ScanLinks.dfy` | what the scan must find, that it finds exactly that, and where the limits are |
| `ResultOrder.dfy`, `ResultMerge.dfy`, `Batcher.dfy`, `SearchService.dfy` | result order, refinement, adaptive batches and the event stream |
| `Utf8.dfy`, `Utf16.dfy`, `PdfStrings.dfy`, `PdfStandard.dfy`, `PdfText.dfy`, `XmlText.dfy`, `XmlTags.dfy`, `Rtf.dfy`, `RtfWriting.dfy`, `RtfWords.dfy` | the text decoders |
| `LogRotation.dfy`, `Watcher.dfy`, `Overlay.dfy` | log rotation, snapshot differences and the overlay plan |

`dafny verify dfyconfig.toml` checks everything.

Reading notes:

- A method of a class is proved equal to a function of its old state; what the
  source promises is proved of that function.
- Bytes are characters (below 256 where it matters); integer widths, wrap-around
  and limits of the source are written out. A thrown exception is an absent
  result.
- The environment is a parameter: the directory graph and its parsed ignore
  files, file snapshots, delivery latencies, the answers of sinks, stop
  requests, the results an engine would stream. Time is an arbitrary number.
- POSIX path keys: a normalized relative path is its own key.

Where the code does not do what its surroundings suggest, the model follows the
code, a lemma shows the difference and another says exactly when it occurs:

- a producer whose token is stopped can consume a notification and leave another
  producer asleep beside a free slot (`StoppedProducerStrandsAnother`,
  `ProducersServedExactlyWhen`);
- a `*` in a file name defeats a `*` in a pattern (`StarredPatternMissesText`,
  `ExactForTextIff`, `ExactForPatternIff`);
- a directory-only name rule also ignores a plain file of that name
  (`DirectoryRuleOnFile`, `DirectoryRuleIsAboutDirectoriesExactlyWhen`), and a
  directory written with a trailing slash contains nothing
  (`TrailingSeparatorContainsNothing`);
- where two paths give a directory different ignore rules, the order of entries
  decides which apply (`LinkOrderDecides`, `ScanIsExactUnderFirstRules`), and
  pruning an excluded directory hides a linked file whose target lies elsewhere
  (`PruningHidesLinkedFile`, `PruningRemovesExactly`);
- saving repository settings cannot clear an option (`SavingCannotClear`,
  `RepositoryLoadsBackExactlyWhen`), and an export drops fractions of a
  millisecond (`ExportIsLosslessExactlyWhen`);
- a batch maximum of 2^63 or more lets doubling wrap (`RangeHoldsExactlyBelowHalf`);
- a leading U+FEFF is dropped from UTF-16 text (`TextSurvives`);
- PDF `\r`, `\b` and `\f` escapes lose their byte and an unescaped carriage
  return is not read as a line feed (`LossyEscapes`, `StandardExactlyWhenFaithful`);
- ToUnicode codes are misread when one is a prefix of a shorter one followed by
  others (`OverlappingCodesMisread`, `GreedyIsExactWhenUnambiguous`);
- JSON escapes `\b`, `\f` and `\u` are rejected, and other control characters are
  written unescaped (`ReadsStandardExactlyWhen`, `WritesStandardExactlyWhen`);
- RTF surrogate pairs vanish (`SurrogatesAreDropped`) and a fallback position
  swallows a brace (`FallbackSwallowsBraces`, `BracesActExactlyWhen`);
- a path that is both scanned and hidden is planned twice (`ScannedAndHidden`).

## Model

| member | source | states |
|---|---|---|
| QueueProtocol.RunKeepsInv | src/core/concurrency/bounded-queue.hpp:37-95 | the inductive invariant (shape of the waiting sets, conservation, close, free items and slots covered by notified calls) holds after every run of lock-protected steps, with any interleaving, stop requests and spurious wake-ups |
| QueueProtocol.NoLostConsumerWakeup | src/core/concurrency/bounded-queue.hpp:55-95 | no lost consumer wake-up: while a consumer sleeps un-notified on an open queue, the items are at most the notified consumers that have not run yet; after close() has notified, nobody sleeps |
| QueueProtocol.NoLostProducerWakeup | src/core/concurrency/bounded-queue.hpp:37-81 | the dual for free slots, in every run in which no producer's own token is stopped or only one call produces |
| QueueProtocol.ProducersServedExactlyWhen | src/core/concurrency/bounded-queue.hpp:37-81 | for a set of producers and a set of stopped tokens, every run keeps that guarantee if and only if the sets are disjoint or at most one call produces |
| QueueProtocol.StoppedProducerStrandsAnother | src/core/concurrency/bounded-queue.hpp:44-58 | for every capacity and every two producers, a run in which one, woken and then stopped, uses up the notification and the other sleeps for good beside a free slot |
| QueueProtocol.FirstInFirstOut | src/core/concurrency/bounded-queue.hpp:49-80 | accepted items are the popped ones followed by the queued ones, in order; size and peak never exceed the capacity |
| QueueProtocol.PeakIsRunningMaximum | src/core/concurrency/bounded-queue.hpp:50-53 | the peak metric is the largest queue length of the run |
| QueueProtocol.QuiescentSleepersHaveCause | src/core/concurrency/bounded-queue.hpp:44-71 | when no call can run, consumers sleep only on an empty open queue, and, under the exact condition above, producers only on a full open one, never both |
| QueueProtocol.RunOrigins | src/core/concurrency/bounded-queue.hpp:37-81 | every waiting push was entered by a push of the run, and a push gave up only if its own token was stopped |
| QueueProtocol.StoppedCallsAreAwake | src/core/concurrency/bounded-queue.hpp:37-81 | in every reachable state no call whose token is stopped is asleep |
| QueueProtocol.StoppedPushReturns | src/core/concurrency/bounded-queue.hpp:44-47 | when a stopped push next holds the lock it returns, waits nowhere and leaves no value |
| QueueProtocol.StoppedPopReturns | src/core/concurrency/bounded-queue.hpp:64-81 | when a stopped pop next holds the lock it returns, with the front item if there is one |
| QueueProtocol.ClosedForGood | src/core/concurrency/bounded-queue.hpp:37-95 | over any run a closed queue stays closed, accepts nothing and puts nobody to sleep |
| QueueProtocol.WaitsAreCounted | src/core/concurrency/bounded-queue.hpp:41-42 | the wait counters are the numbers of calls of the run that met an open queue full, or empty |
| BoundedQueues.BoundedQueue.BeginPush | src/core/concurrency/bounded-queue.hpp:37-58 | push up to its wait: counts the wait, sleeps, or completes; exactly one protocol step; the fields afterwards mirror the protocol state |
| BoundedQueues.BoundedQueue.ResumePush | src/core/concurrency/bounded-queue.hpp:44-58 | a woken push re-tests closed, capacity and its token; the fields afterwards mirror the protocol state |
| BoundedQueues.BoundedQueue.FinishPush | src/core/concurrency/bounded-queue.hpp:46-57 | enqueues, updates the peak and notifies one consumer, or refuses when closed or stopped; the fields afterwards mirror the protocol state |
| BoundedQueues.BoundedQueue.BeginPop | src/core/concurrency/bounded-queue.hpp:64-81 | pop up to its wait; a non-empty queue is served even when closed or stopped; the fields afterwards mirror the protocol state |
| BoundedQueues.BoundedQueue.ResumePop | src/core/concurrency/bounded-queue.hpp:71-81 | a woken pop re-tests; the fields afterwards mirror the protocol state |
| BoundedQueues.BoundedQueue.FinishPop | src/core/concurrency/bounded-queue.hpp:73-80 | takes the front and notifies one producer, or returns nothing; the fields afterwards mirror the protocol state |
| BoundedQueues.BoundedQueue.BeginClose | src/core/concurrency/bounded-queue.hpp:86-91 | sets the closed flag under the lock; the fields afterwards mirror the protocol state |
| BoundedQueues.BoundedQueue.NotifyConsumers | src/core/concurrency/bounded-queue.hpp:93 | wakes every sleeping consumer after the lock is released; the fields afterwards mirror the protocol state |
| BoundedQueues.BoundedQueue.NotifyProducers | src/core/concurrency/bounded-queue.hpp:94 | wakes every sleeping producer; the fields afterwards mirror the protocol state |
| BoundedQueues.BoundedQueue.StopRequested | src/core/concurrency/bounded-queue.hpp:44 | a stop request wakes its own sleeping call; the fields afterwards mirror the protocol state |
| WorkerPool.PoolRunKeepsInv | src/core/concurrency/worker-pool.hpp:47-125 | over every interleaving each worker is in the pop it started or runs the task it popped, and every popped task is running or has run, once |
| WorkerPool.CloseDrains | src/core/concurrency/worker-pool.hpp:55-59 | when close() has joined and some worker was not stopped, the queue is empty and every accepted task ran exactly once |
| WorkerPool.StopLosesNoTask | src/core/concurrency/worker-pool.hpp:64-72 | after requestStop() every accepted task ran exactly once or is still queued, in order |
| WorkerPool.StoppedWorkerStays | src/core/concurrency/worker-pool.hpp:107-117 | a stopped worker that is back at its loop stays there or has returned, in every run |
| WorkerPool.StopEndsTheWork | src/core/concurrency/worker-pool.hpp:64-72 | once all workers are stopped, whatever else happens, at most those then at their pop take one more task |
| WorkerPool.PoolKeepsShape | src/core/concurrency/worker-pool.hpp:88-105 | over every run the pool keeps its workers, at least one, and the capacity requested or twice their number |
| WorkerPool.JoinNeverStuck | src/core/concurrency/worker-pool.hpp:107-125 | after close() has notified, a worker that has not returned can always step: joining cannot deadlock |
| WorkerPool.WorkerStepsRunOut | src/core/concurrency/worker-pool.hpp:107-117 | every worker step lowers a weight, so workers cannot run for ever on a closed queue |
| WorkerPool.JoinTerminates | src/core/concurrency/worker-pool.hpp:119-125 | any run of worker steps after close() is bounded by that weight |
| ContentHashing.Sha256.Transform | src/core/index/content-hash.cpp:174-219 | replaces the state by the FIPS 180-4 section 6.2.2 compression of the buffered block |
| ContentHashing.Sha256.AddByteCount | src/core/index/content-hash.cpp:155-163 | refuses (throws) exactly when the bit count would leave 64 bits, and then changes nothing |
| ContentHashing.Sha256.Update | src/core/index/content-hash.cpp:111-124 | appends the bytes to the absorbed message, keeps the buffer index below 64, or refuses without change |
| ContentHashing.Sha256.Flush | src/core/index/content-hash.cpp:119-122 | compresses a full buffer and empties it |
| ContentHashing.Sha256.MakeRoomForLength | src/core/index/content-hash.cpp:133-141 | fills and compresses the extra block when the length does not fit |
| ContentHashing.Sha256.PadWithZeros | src/core/index/content-hash.cpp:130-146 | 0x80 and exactly the zeros of section 5.1.1 stand before the length field |
| ContentHashing.Sha256.WriteLength | src/core/index/content-hash.cpp:165-172 | the last eight bytes are the big-endian bit count; the buffer is then the last padded block |
| ContentHashing.Sha256.Finish | src/core/index/content-hash.cpp:126-152 | prints the digest of everything update() accepted |
| ContentHashing.HashChunks | src/core/index/content-hash.cpp:234-267 | for every message and every split into pieces: the printed digest is the section 6.2.2 hash of the section 5.1.1 padded whole, or the overflow is reported exactly beyond 2^61-1 bytes |
| ContentHashing.RunRounds | src/core/index/content-hash.cpp:188-209 | the 64 rounds on eight working variables are the standard's round function iterated |
| ContentHashing.Schedule | src/core/index/content-hash.cpp:176-186 | the in-place message schedule is the standard's W_t |
| ContentHashing.DigestToHex | src/core/index/content-hash.cpp:92-106 | 64 lower-case hexadecimal digits, most significant byte first |
| ContentHashing.StateHexInjective | src/core/index/content-hash.cpp:92-106 | different states print differently |
| ContentHashing.FullBufferIsBlock | src/core/index/content-hash.cpp:119-122 | a full buffer is exactly the next 64 bytes of the message |
| ContentHashing.HashBlocksPrefix | src/core/index/content-hash.cpp:115-123 | hashing the whole blocks does not depend on what is fed later |
| Sha256Constants.RoundConstantsAreCubeRoots | src/core/index/content-hash.cpp:40-49 | the round constants are the first 32 bits of the fractional parts of the cube roots of the first 64 primes (FIPS 180-4, section 4.2.2) |
| Sha256Constants.CubeRootFractionIsUnique | src/core/index/content-hash.cpp:40-49 | no other words are |
| Sha256Constants.InitialStateIsSquareRoots | src/core/index/content-hash.cpp:29-38 | the initial hash value is that of the square roots of the first eight (section 5.3.3) |
| Sha256Example.AbcHex | tests/unit/content-hash-tests.cpp:30-31 | the specification that the hasher is proved to refine gives `abc` its published digest: every constant, rotation and addition enters it |
| Sha256Standard.ZeroCountIsSmallest | src/core/index/content-hash.cpp:130-146 | the padding is the smallest that completes a block |
| Sha256Standard.BigEndianInverse | src/core/index/content-hash.cpp:165-172 | the length bytes determine the length |
| Sha256Standard.PaddedIsWholeBlocks | src/core/index/content-hash.cpp:130-149 | a padded message is a whole number of 64-byte blocks |
| SettingsExport.ExportReadsBack | src/app/services/settings-service.cpp:538-624 | reading a written export succeeds, consumes all of it, and gives the normalized settings and every saved search, for all settings and all byte strings |
| SettingsExport.ExportIsLosslessExactlyWhen | src/app/services/settings-service.cpp:357-378 | the round trip is the identity exactly when the settings were already normalized and every search was saved at a whole millisecond from the epoch on |
| SettingsExport.BodyReadsBack | src/app/services/settings-service.cpp:101-145 | string escapes are undone by the string reader, whatever follows |
| JsonStandard.WritesStandardExactlyWhen | src/app/services/settings-service.cpp:403-436 | a written string is a JSON string of RFC 8259 with the same value if and only if the text has no control character but line feed, carriage return and tab |
| JsonStandard.ReadsStandardExactlyWhen | src/app/services/settings-service.cpp:101-145 | a JSON string is read, and as RFC 8259 has it, if and only if it has no escape `\b`, `\f` or `\u` |
| JsonStandard.UnescapesExactlyWhen | src/app/services/settings-service.cpp:124-140 | each two-character escape means what section 7 of RFC 8259 says, except that `\b` and `\f` are rejected |
| SettingsExport.GlobalReadsBack | src/app/services/settings-service.cpp:460-495 | the printed settings object is read back, normalized, in its fixed key order |
| SettingsExport.SearchesReadBack | src/app/services/settings-service.cpp:519-536 | a printed list of saved searches of any length is read back |
| SettingsText.NormalizedIsStable | src/app/services/settings-service.cpp:641-658 | normalization is idempotent |
| SettingsText.NormalizedByField | src/app/services/settings-service.cpp:641-658 | each size is kept up to its limit and cut to it beyond, and nothing else changes |
| SettingsText.EnumTextsReadBack | src/app/services/settings-service.cpp:711-754 | theme and language names are read back |
| SettingsServices.ReadSettingsExport | src/app/services/settings-service.cpp:538-566 | the cursor parser equals the grammar, including every rejection |
| SettingsServices.WriteSettingsExport | src/app/services/settings-service.cpp:568-624 | the appending writer produces the printed form |
| SettingsServices.ReadSearchLoop | src/app/services/settings-service.cpp:519-536 | the comma loop reads one or more searches |
| SettingsServices.EscapedJsonString | src/app/services/settings-service.cpp:403-436 | the escaping loop produces the quoted form of any byte string |
| SettingsServices.ImportTransfersSettings | src/app/services/settings-service.cpp:902-915 | exporting one store and importing into another makes the other load the same settings and yields the same searches |
| JsonReading.JsonReader.Consume | src/app/services/settings-service.cpp:70-80 | skips white space and takes the expected character if it is next; value and remaining text are those of the grammar |
| JsonReading.JsonReader.Expect | src/app/services/settings-service.cpp:59-68 | the same, or fails; value and remaining text are those of the grammar |
| JsonReading.JsonReader.ReadString | src/app/services/settings-service.cpp:101-145 | reads a quoted string with its escapes, or fails; value and remaining text are those of the grammar |
| JsonReading.JsonReader.ExpectKey | src/app/services/settings-service.cpp:90-99 | reads exactly the expected key and its colon; value and remaining text are those of the grammar |
| JsonReading.JsonReader.ReadUnsignedMax | src/app/services/settings-service.cpp:147-169 | reads digits into 64 bits, failing on none and on overflow; value and remaining text are those of the grammar |
| JsonReading.JsonReader.ReadInt | src/app/services/settings-service.cpp:171-180 | the same, limited to int; value and remaining text are those of the grammar |
| JsonReading.JsonReader.ReadBool | src/app/services/settings-service.cpp:182-198 | reads true or false; value and remaining text are those of the grammar |
| JsonReading.JsonReader.SkipWhitespace | src/app/services/settings-service.cpp:206-211 | moves past JSON white space; value and remaining text are those of the grammar |
| PreferenceStorage.SavedGlobalLoadsBack | src/app/services/settings-service.cpp:758-805 | saving and then loading through the preference map gives the normalized settings, whatever was stored before |
| PreferenceStorage.LoadedIsNormalized | src/app/services/settings-service.cpp:758-790 | whatever texts are stored, loaded settings are normalized |
| PreferenceStorage.EmptyStoreLoadsDefaults | src/app/services/settings-service.cpp:758-790 | an empty store gives the default settings |
| PreferenceStorage.SavedRepositoryLoads | src/app/services/settings-service.cpp:807-900 | saved repository options load back over those stored before |
| PreferenceStorage.RepositoryLoadsBackExactlyWhen | src/app/services/settings-service.cpp:807-900 | they load back unchanged exactly when every stored option is also set in what is saved |
| PreferenceStorage.SavingCannotClear | src/app/services/settings-service.cpp:846-900 | whatever is stored and saved, each of the nine options that is left unset loads as it did before |
| PreferenceStorage.PreferenceStore.SaveGlobalSettings | src/app/services/settings-service.cpp:792-805 | the store afterwards holds the nine preferences over the old ones |
| PreferenceStorage.PreferenceStore.LoadGlobalSettings | src/app/services/settings-service.cpp:758-790 | reads the stored texts, with defaults and normalization |
| PreferenceStorage.PreferenceStore.SaveRepositorySettings | src/app/services/settings-service.cpp:846-900 | writes the version and the set options only |
| PreferenceStorage.PreferenceStore.LoadRepositorySettings | src/app/services/settings-service.cpp:807-839 | reads the stored options of one repository |
| Globbing.GlobMatches | src/core/filesystem/git-ignore-rules.cpp:53-90 | the backtracking loop ends; true implies the pattern's meaning, and it is exact when the text or the pattern has no `*` |
| Globbing.GlobIsSound | src/core/filesystem/recursive-file-scanner.cpp:224-261 | on all inputs, a match is a true match |
| Globbing.GlobIsExact | src/core/filesystem/git-ignore-rules.cpp:53-90 | match if and only if the recursive meaning of `*` and `?` relates pattern and text, when one of them has no `*` |
| Globbing.ExactForTextIff | src/core/filesystem/git-ignore-rules.cpp:60-76 | for a given text, the matcher is exact for every pattern if and only if the text has no `*` |
| Globbing.ExactForPatternIff | src/core/filesystem/git-ignore-rules.cpp:60-76 | for a given pattern, the matcher is exact for every text if and only if the pattern has no `*` |
| Globbing.StarredPatternMissesText | src/core/filesystem/git-ignore-rules.cpp:60-76 | a literal `*` in the text is compared before the star is tried, so a true match is missed |
| Globbing.SearchIsExact | src/core/filesystem/git-ignore-rules.cpp:58-85 | every aligned state of the loop decides as the two remainders do |
| GitIgnore.Ignores | src/core/filesystem/git-ignore-rules.cpp:247-263 | the last matching rule decides; a path or rule base that cannot be normalized gives "not ignored" |
| GitIgnore.RuleMatchesPath | src/core/filesystem/git-ignore-rules.cpp:153-169 | one rule matches inside its base directory, by name or by path |
| GitIgnore.BasenameRuleMatches | src/core/filesystem/git-ignore-rules.cpp:106-132 | a directory-only name rule looks at every component, any other at the last |
| GitIgnore.AnyComponentMatches | src/core/filesystem/git-ignore-rules.cpp:109-126 | the loop over separators visits exactly the components |
| GitIgnore.AfterRule | src/core/filesystem/git-ignore-rules.cpp:251-262 | one more rule decides if it matches, and otherwise changes nothing |
| GitIgnore.DirectoryRuleCoversContents | src/core/filesystem/git-ignore-rules.cpp:106-151 | a directory-only rule that matches a directory also matches every file at any depth below it |
| GitIgnore.DirectoryRuleOnFile | src/core/filesystem/git-ignore-rules.cpp:106-169 | for any base, a directory-only rule matches a file if and only if it matches a directory above it or, for a name rule, the file's own name |
| GitIgnore.DirectoryRuleIsAboutDirectoriesExactlyWhen | src/core/filesystem/git-ignore-rules.cpp:106-126 | so it matches a file only through its directories if and only if the file's own name does not match or some directory above does |
| GitIgnore.LiteralRuleMatches | src/core/filesystem/git-ignore-rules.cpp:128-169 | a rule without wildcards matches below its base its own path if anchored, and that path or name at any depth if not |
| GitIgnore.NothingOutsideBase | src/core/filesystem/git-ignore-rules.cpp:153-169 | no rule matches outside its base, nor the base itself |
| GitIgnore.InsideIsExtension | src/core/filesystem/path-normalization.cpp:105-114 | inside means: the base, a separator, and a tail |
| GitIgnore.InsideIsTransitive | src/core/filesystem/path-normalization.cpp:105-114 | containment is transitive |
| GitIgnore.TrailingSeparatorContainsNothing | src/core/filesystem/path-normalization.cpp:105-114 | a base written with a trailing separator contains no normalized path |
| Scanning.RecursiveFileScanner.ScanDirectory | src/core/filesystem/recursive-file-scanner.cpp:350-502 | the recursive scan over the mutable visited set ends on every finite graph, link cycles included, and its whole state is the walk's |
| Scanning.RecursiveFileScanner.VisitEntry | src/core/filesystem/recursive-file-scanner.cpp:366-496 | one entry: descend, count, skip or stream |
| Scanning.Examine | src/core/filesystem/recursive-file-scanner.cpp:370-494 | the cascade of filters gives exactly the declared conditions for entering, streaming and both counters |
| ScanSoundness.ScanIsSound | src/core/filesystem/recursive-file-scanner.cpp:350-502 | on any graph: only selected files are streamed, under rules that a path gives, and none twice |
| ScanExactness.ScanIsExact | src/core/filesystem/recursive-file-scanner.cpp:339-502 | unless stopped, a file is streamed if and only if a path without repetition leads to it whose directories pass and it passes itself: on every graph, link cycles included, where no two such paths to a directory decide differently about one of its entries |
| ScanExactness.ScanIsExactUnderFirstRules | src/core/filesystem/recursive-file-scanner.cpp:350-502 | on every graph: a file is streamed if and only if its directory was entered and it passes under the rules of the path first taken there |
| ScanPlaces.SameRulesAgree | src/core/filesystem/recursive-file-scanner.cpp:363-364 | they decide alike where they give the directory the same rules |
| ScanPlaces.TreesAreCoherent | src/core/filesystem/recursive-file-scanner.cpp:353-364 | as they do where only one path without repetition leads to each directory |
| ScanPlaces.BackLinksKeepTree | src/core/filesystem/recursive-file-scanner.cpp:353-359 | only one does where each directory has a home path and a path without repetition goes on only to homes or back to a directory on it |
| ScanTrees.TreeExactlyWithHomes | src/core/filesystem/recursive-file-scanner.cpp:353-359 | and in no other graph: one path to each directory if and only if such homes exist |
| ScanTrees.LinksUpwardsKeepTree | src/core/filesystem/recursive-file-scanner.cpp:353-359 | any tree, however it branches, with any followed links from a directory to itself or one above it is such a graph |
| ScanTrees.StarIsTree | src/core/filesystem/recursive-file-scanner.cpp:353-359 | for instance a folder of any number of folders, all with a link back to it |
| ScanPlaces.WithoutIgnoreFilesCoherent | src/core/filesystem/recursive-file-scanner.cpp:363-364 | paths give the same rules on every graph when ignore files are not respected |
| ScanPlaces.RulesInForce | src/core/filesystem/recursive-file-scanner.cpp:363-364 | the rules at a directory are the initial ones followed by each ancestor's, outermost first, and no sibling's |
| ScanLinks.LinkOrderDecides | src/core/filesystem/recursive-file-scanner.cpp:353-418 | with a followed link into an ignored part of the tree, the entry order decides whether a file is streamed |
| ScanSoundness.WalkOnce | src/core/filesystem/recursive-file-scanner.cpp:353-359 | each directory identity is expanded at most once: its files are never streamed again |
| ScanFilters.FilesPassExactlyWhen | src/core/filesystem/recursive-file-scanner.cpp:370-494 | unless stopped, an entry of an entered directory is streamed if and only if it meets each condition of kind, size, rules, hiddenness, directories, patterns and extensions, spelled out on the options |
| ScanFilters.DirectoriesEnteredExactlyWhen | src/core/filesystem/recursive-file-scanner.cpp:386-418 | and the directories entered are the root and those that an entry of an entered one leads into, under the conditions for directories |
| ScanCounters.CountersAreExact | src/core/filesystem/recursive-file-scanner.cpp:420-442 | the counters are the numbers of ignored entries and of files left out as hidden, in the entered directories, each once, on every graph |
| ScanPruning.PruningRemovesExactly | src/core/filesystem/recursive-file-scanner.cpp:373-412 | on every graph, a file is selected if and only if it passes at the end of an unpruned path without repetition on which no entry lies in an excluded directory |
| ScanPruning.PruningIsInvisible | src/core/filesystem/recursive-file-scanner.cpp:408-412 | so pruning changes nothing when the contents of a directory have paths inside its own |
| ScanPruning.TreesAreNested | src/core/filesystem/recursive-file-scanner.cpp:373-412 | as they have when each entry's path is its directory's with its name appended |
| ScanPruning.PruningHidesLinkedFile | src/core/filesystem/recursive-file-scanner.cpp:373-412 | a linked file inside an excluded directory, whose relative path is its target's, is the exception |
| ScanRuns.StoppedScanIsPrefix | src/core/filesystem/recursive-file-scanner.cpp:367-368 | a stop or a refusing sink leaves a prefix of what the full scan streams |
| ScanFilters.StopIsHonoured | src/core/filesystem/recursive-file-scanner.cpp:366-368 | a stop seen at the n-th poll leaves at most n files |
| ScanFilters.RefusalEndsScan | src/core/filesystem/recursive-file-scanner.cpp:494-496 | a refused file is the last one: what is streamed is the full scan up to it |
| Utf8.FirstReadsBack | src/core/document/pdf-document-extractor.cpp:255-282 | the bytes of a scalar decode to it whatever follows; a surrogate's do not decode |
| Utf8.EncodeReadsBack | src/core/document/xml-document-utils.cpp:36-69 | UTF-8 output decodes back to the same scalars |
| Utf8.SurrogatesDoNotDecode | src/core/document/pdf-document-extractor.cpp:255-282 | output is valid UTF-8 exactly when no surrogate was appended |
| Utf16.ReadScalar | src/core/document/pdf-document-extractor.cpp:285-315 | one scalar: a code unit, a surrogate pair, or a replacement for a broken pair or odd byte |
| Utf16.BigEndianToUtf8 | src/core/document/pdf-document-extractor.cpp:318-328 | the loop converts every scalar after an optional byte order mark |
| Utf16.TextSurvives | src/core/document/pdf-document-extractor.cpp:285-328 | encode to big-endian UTF-16, convert, decode: the same text, except that a leading U+FEFF is dropped; the identity exactly when the text does not start with it |
| Utf16.OutputIsUtf8 | src/core/document/pdf-document-extractor.cpp:285-328 | on any bytes no high surrogate comes out, and the output is valid UTF-8 exactly when no unpaired low surrogate is met |
| Utf16.BrokenPairIsReplaced | src/core/document/pdf-document-extractor.cpp:285-315 | a high surrogate without its low one takes the next code unit with it and gives one U+FFFD |
| PdfStrings.AppendEscaped | src/core/document/pdf-document-extractor.cpp:933-980 | one escape: named, line continuation, up to three octal digits cut to a byte, or the character itself |
| PdfStrings.LiteralString | src/core/document/pdf-document-extractor.cpp:983-1025 | the loop with nesting depth equals the recursive reading, and leaves the offset after it |
| PdfStrings.HexString | src/core/document/pdf-document-extractor.cpp:1028-1066 | the nibble loop collects all digits up to the bracket or the end, or refuses |
| PdfStrings.LiteralReadsBack | src/core/document/pdf-document-extractor.cpp:933-1025 | any bytes written plain, escaped, octal, continued or in balanced parentheses are read in full and nothing more |
| PdfStrings.EscapeAllMeansItself | src/core/document/pdf-document-extractor.cpp:979-1018 | any byte string has such a writing, with only backslashes and parentheses escaped |
| PdfStandard.LossyEscapes | src/core/document/pdf-document-extractor.cpp:933-980 | for every byte and whatever follows, the escape is read as table 3 of ISO 32000-1 has it if and only if the byte is not one of `r`, `b`, `f` |
| PdfStandard.StandardExactlyWhenFaithful | src/core/document/pdf-document-extractor.cpp:933-1025 | a closed string is read as section 7.3.4.2 of ISO 32000-1 has it if and only if it has none of these escapes and no unescaped carriage return |
| PdfStrings.HexReadsBack | src/core/document/pdf-document-extractor.cpp:1028-1066 | any bytes in hexadecimal digits of either case, spread over white space, read back |
| PdfStrings.OddDigitReadsAsHigh | src/core/document/pdf-document-extractor.cpp:1062-1063 | a missing last digit counts as zero |
| PdfText.ToUnicodeMap.AddEntry | src/core/document/pdf-document-extractor.cpp:1128-1138 | adds one code unless it is empty, longer than four bytes or the map is full |
| PdfText.ToUnicodeMap.FindCode | src/core/document/pdf-document-extractor.cpp:1475-1488 | the descending search finds the longest code at the offset |
| PdfText.ToUnicodeMap.DecodeBytes | src/core/document/pdf-document-extractor.cpp:1464-1503 | greedy decoding with the single-byte fallback, or the byte order mark, or the fallback alone |
| PdfText.LongestCodeIsLongest | src/core/document/pdf-document-extractor.cpp:1475-1488 | the code found is in the map and no longer one matches |
| PdfText.MappedIsSplit | src/core/document/pdf-document-extractor.cpp:1470-1497 | greedy decoding is cutting the bytes into codes and single bytes and looking each up |
| PdfText.MarkedTextSurvives | src/core/document/pdf-document-extractor.cpp:1499-1500 | without a map, UTF-16 text behind its byte order mark survives |
| PdfText.UnmarkedBytesAreLookedUp | src/core/document/pdf-document-extractor.cpp:1502-1502 | and any other string is read byte by byte through the table of the font |
| PdfText.GreedyIsExactWhenUnambiguous | src/core/document/pdf-document-extractor.cpp:1475-1488 | cutting gives every sequence of the map's codes back if and only if no code is a prefix of a shorter one followed by further codes |
| PdfText.CodesDecode | src/core/document/pdf-document-extractor.cpp:1470-1497 | so with such codes every sequence of them decodes to its texts |
| PdfText.PrefixFreeIsUnambiguous | src/core/document/pdf-document-extractor.cpp:1475-1488 | prefix-free codes are such codes |
| PdfText.StartingAlikeIsHarmless | src/core/document/pdf-document-extractor.cpp:1475-1488 | and so are some that are not prefix-free |
| PdfText.OverlappingCodesMisread | src/core/document/pdf-document-extractor.cpp:1475-1488 | an ambiguous set of codes, and a text shown with it that is misread |
| PdfText.FontMapIsExact | src/core/document/pdf-document-extractor.cpp:1128-1138 | adding a font's glyphs one by one gives exactly their codes, each with its text |
| PdfText.ShownTextDecodes | src/core/document/pdf-document-extractor.cpp:1464-1497 | any glyphs shown through an unambiguous map give their own text, as valid UTF-8 |
| PdfText.WrittenLiteralDecodes | src/core/document/pdf-document-extractor.cpp:983-1497 | the same end to end, however the codes are written as a literal string |
| PdfText.WrittenHexDecodes | src/core/document/pdf-document-extractor.cpp:1028-1497 | and however they are written as a hexadecimal string |
| XmlText.AppendDecodedText | src/core/document/xml-document-utils.cpp:296-336 | the decoding loop replaces each known entity of at most 32 bytes and keeps everything else |
| XmlText.WrittenReadsBack | src/core/document/xml-document-utils.cpp:296-336 | text written with any mix of plain bytes, named entities and numeric references decodes to its meaning, whatever follows |
| XmlText.EscapingIsUndone | src/core/document/xml-document-utils.cpp:101-123 | text with the five predefined entities escaped decodes to itself |
| XmlText.ReferenceDecodes | src/core/document/xml-document-utils.cpp:72-98 | a decimal or hexadecimal reference to any scalar decodes to UTF-8 that decodes back to it |
| XmlText.NamedReferenceExactly | src/core/document/xml-document-utils.cpp:101-123 | a name between `&` and `;` becomes the character that XML 1.0, section 4.6 gives it, in letters of either case, and stays as it is if it has none |
| XmlText.NumericReferenceExactly | src/core/document/xml-document-utils.cpp:72-98 | a numeric reference in either base, with any leading zeros, becomes its scalar if it has at most 32 bytes and names one, and stays in the text as it is otherwise |
| XmlText.OtherReferencesStay | src/core/document/xml-document-utils.cpp:89-97 | a reference to a surrogate or beyond the last scalar, however large, leaves the decoded text with the reference in it |
| XmlTags.AttributeValue | src/core/document/xml-document-utils.cpp:241-294 | the loop over name, equals sign and quoted value gives the first matching attribute, decoded |
| XmlTags.TagReadsBack | src/core/document/xml-document-utils.cpp:241-294 | for any written tag (white space, either quotes, closing or self-closing) the lookup gives the original value of the first attribute whose name matches, and nothing if none does |
| XmlTags.FirstMatchIsFirst | src/core/document/xml-document-utils.cpp:283-288 | no earlier attribute matches |
| XmlTags.EscapedAttribute | src/core/document/xml-document-utils.cpp:241-294 | any value can be written so, in either quotes |
| XmlTags.LocalNameOfName | src/core/document/xml-document-utils.cpp:229-239 | the local part of a name is what follows its colon |
| XmlTags.PrefixesMatch | src/core/document/xml-document-utils.cpp:229-239 | a wanted name without a prefix matches the local part whatever the prefix, one with a prefix the whole name, in letters of either case |
| ResultOrder.LessIsTotalOrder | src/core/search/search-result-merge.cpp:16-37 | the seven-part key order is a strict total order |
| ResultOrder.LessIsLexicographic | src/core/search/search-result-merge.cpp:16-37 | results come by root, path, file names before contents, line, column, length and text of the line, texts by their first difference |
| ResultMerge.SortAndRemoveDuplicates | src/core/search/search-result-merge.cpp:39-44 | strictly sorted, same keys, only given results |
| ResultMerge.Unique | src/core/search/search-result-merge.cpp:42-43 | one result of each run of equal keys stays |
| ResultMerge.OrderedResultsContain | src/core/search/search-result-merge.cpp:46-49 | found exactly when some result has the key |
| ResultMerge.Divide | src/core/search/search-result-merge.cpp:62-93 | the two-pointer loop yields the intersection and both differences, strictly sorted |
| ResultMerge.RefineSearchResults | src/core/search/search-result-merge.cpp:51-101 | confirmed, added and removed partition the keys; merged is the first `limit` of the ordered direct results, whose keys are those of confirmed and added |
| ResultMerge.MergeSearchResults | src/core/search/search-result-merge.cpp:103-115 | the first `limit` results of the union in strict key order; every other key is greater |
| ResultMerge.SortedKeysAreUnique | src/core/search/search-result-merge.cpp:39-44 | two strictly sorted lists over the same keys have the same keys in the same order |
| ResultMerge.FrontIsDetermined | src/core/search/search-result-merge.cpp:95-115 | what is shown depends only on the key set and the limit: not on which list comes first, nor on how the sort orders equal keys |
| Batching.AdaptiveResultBatcher.constructor | src/app/services/adaptive-result-batcher.cpp:31-48 | normalizes to at least one and clamps the initial size |
| Batching.AdaptiveResultBatcher.RecordDeliveryLatency | src/app/services/adaptive-result-batcher.cpp:55-68 | doubles with 64-bit wrap-around after a fast delivery, halves after a slow one |
| Batching.StartKeepsRange | src/app/services/adaptive-result-batcher.cpp:31-68 | with a maximum below half the 64-bit range the size stays between minimum and maximum, and at least one, for every run of latencies |
| Batching.RangeHoldsExactlyBelowHalf | src/app/services/adaptive-result-batcher.cpp:61-62 | for a given maximum that holds for all options and runs if and only if the maximum is below 2^63 |
| Batching.SlowerIsNeverLarger | src/app/services/adaptive-result-batcher.cpp:55-68 | of two deliveries the slower never leaves the larger size |
| Batching.OnTargetKeepsSize | src/app/services/adaptive-result-batcher.cpp:55-68 | a delivery strictly between half and twice the target changes nothing |
| Batching.FastRunDoubles | src/app/services/adaptive-result-batcher.cpp:60-64 | after k fast deliveries the size is 2^k times the first, or the maximum if that is less |
| Batching.SlowRunHalves | src/app/services/adaptive-result-batcher.cpp:66-67 | after k slow ones it is halved k times, or the minimum if that is more |
| Batching.BoundsAreReached | src/app/services/adaptive-result-batcher.cpp:55-68 | either bound is reached within 64 such deliveries |
| Batching.StartsNearRequest | src/app/services/adaptive-result-batcher.cpp:31-48 | the first size is the requested one, or the bound it exceeds |
| Batching.FixedSizeStays | src/app/services/adaptive-result-batcher.cpp:35-40 | without adaptation the size never changes |
| SearchServices.SearchWithEvents | src/app/services/search-service.cpp:258-335 | a refused start is followed by nothing; otherwise batches in order up to the first refusal, then exactly one terminal event of the right kind |
| SearchServices.StreamBatches | src/app/services/search-service.cpp:273-320 | the batches offered are the results handed over, cut at the adapting size |
| SearchServices.BatchesKeepResults | src/app/services/search-service.cpp:304-319 | concatenated, the batches are the streamed results, and none is empty |
| SearchServices.BatchSizesAreExact | src/app/services/search-service.cpp:304-311 | every batch but the final flush has exactly the size current at its delivery |
| SearchServices.BatchSizesStayInRange | src/app/services/search-service.cpp:304-311 | those sizes stay between the normalized minimum and maximum when the maximum is below 2^63 |
| SearchServices.HybridSearch | src/app/services/search-service.cpp:217-246 | hybrid delivers exactly what direct delivers (a prefix if stopped); hits and misses add up to the accepted results, and a hit is one whose key the index has |
| SearchServices.DirectSearch | src/app/services/search-service.cpp:178-184 | an engine streaming to a sink that may refuse |
| SearchServices.OfferedUntilRefused | src/app/services/search-service.cpp:100-116 | offered in order, nothing after the first refusal, all if none |
| SearchServices.EmitIndexedResults | src/app/services/search-service.cpp:100-116 | the indexed strategy publishes the same way and counts what was accepted |
| Rtf.RtfParser.ParseLine | src/core/document/rtf-document-extractor.cpp:413-502 | the loop over a line ends and its state is that of the group machine |
| Rtf.RtfParser.HandleControlWord | src/core/document/rtf-document-extractor.cpp:312-411 | one control word: begin skipping, text, fallback count, Unicode, binary skip, or a failure |
| Rtf.RtfParser.HandleControlSymbol | src/core/document/rtf-document-extractor.cpp:215-267 | one control symbol |
| Rtf.RtfParser.SkipFallbackCharacter | src/core/document/rtf-document-extractor.cpp:269-310 | one fallback character, byte or escape, is skipped |
| Rtf.DocumentKeepsInv | src/core/document/rtf-document-extractor.cpp:413-502 | any lines keep: skipping is monotone along the stack and the current state, depth at most 256, fallback counts at most 32 |
| Rtf.EveryReachableState | src/core/document/rtf-document-extractor.cpp:413-502 | so every state that a document brings the parser to satisfies them |
| Rtf.TurnsReachOutcome | src/core/document/rtf-document-extractor.cpp:413-502 | taking one turn of the loop after another, line after line, comes to what parsing the lines gives |
| Rtf.SkippedTextIsInvisible | src/core/document/rtf-document-extractor.cpp:413-502 | from a skipping state at any place of a document, over any number of lines, the text does not change while the depth does not fall below, and the saved states outside do not move |
| Rtf.SkippedLinesAreInvisible | src/core/document/rtf-document-extractor.cpp:413-502 | so lines that never leave a skipped group add nothing |
| Rtf.GroupRestoresState | src/core/document/rtf-document-extractor.cpp:426-452 | closing a group, on the same or any later line, restores the state of its opening, whatever happened inside; inside skipped text it adds nothing |
| Rtf.SkippedGroupLeavesNoTrace | src/core/document/rtf-document-extractor.cpp:426-452 | a group that begins to skip adds nothing from there to its closing brace, on whatever line, and then state and depth are those of its opening |
| Rtf.InfoOnTwoLines | src/core/document/rtf-document-extractor.cpp:413-502 | an `info` group on two lines is such a group |
| Rtf.StepMoves | src/core/document/rtf-document-extractor.cpp:413-502 | a step keeps, pushes or pops; skipping only begins |
| RtfWords.NamedCharactersRead | src/core/document/rtf-document-extractor.cpp:340-379 | each special character of the RTF specification that the parser knows is read as that character, quotation marks as those of ASCII |
| RtfWords.SkipsExactlyAt | src/core/document/rtf-document-extractor.cpp:323-328 | skipping begins exactly at the eleven destinations, or at any word after `\*` |
| RtfWords.StarredWordSkips | src/core/document/rtf-document-extractor.cpp:215-227 | `\*` makes any word begin a skipped group |
| RtfWords.ParagraphEndsLine | src/core/document/rtf-document-extractor.cpp:335-339 | `\par` drops blanks at the end of the text and ends its line once |
| RtfWords.HexEscapeReads | src/core/document/rtf-document-extractor.cpp:215-267 | `\'` and two digits are the character of that code |
| RtfWords.FallbackCountIsSet | src/core/document/rtf-document-extractor.cpp:381-386 | `\uc` sets the fallback count of its group, up to 32 |
| RtfWords.FallbackIsSkipped | src/core/document/rtf-document-extractor.cpp:388-399 | after `\u` and its number that many bytes are its fallback and vanish, whatever the count |
| RtfWords.EscapesAreSkipped | src/core/document/rtf-document-extractor.cpp:269-310 | an escaped byte, a symbol or a whole word is one fallback character |
| RtfWords.BinaryIsSkipped | src/core/document/rtf-document-extractor.cpp:401-411 | `\bin` skips as many bytes as its number says if none is a backslash, and refuses more than 16 megabytes |
| RtfWriting.WrittenTextReadsBack | src/core/document/rtf-document-extractor.cpp:207-411 | any text written with escapes and `\u` numbers, with a scalar beyond 16 bits as one number or as the prescribed surrogate pair, is read back as the UTF-8 of its surviving scalars |
| RtfWriting.SurrogatesAreDropped | src/core/document/rtf-document-extractor.cpp:207-213 | in the prescribed writing the text survives if and only if all its scalars are at most U+FFFF |
| RtfWriting.FallbackSwallowsBraces | src/core/document/rtf-document-extractor.cpp:269-278 | a group that ends right after `\u` and its number is closed if the fallback count is zero; otherwise its brace is taken for a fallback character and the group stays open |
| Rtf.BracesActExactlyWhen | src/core/document/rtf-document-extractor.cpp:417-452 | the guard behind it: an opening brace opens a group if and only if no fallback character is due and the depth allows it; a closing brace closes its group if and only if none is due |
| LogRotation.FileStructuredLogger.RotateIfNeeded | src/core/diagnostics/file-structured-logger.cpp:133-166 | the descending loop of removes and renames moves every file up one number, or nothing when the line fits |
| LogRotation.FileStructuredLogger.Write | src/core/diagnostics/file-structured-logger.cpp:116-131 | rotates if needed and appends the line |
| LogRotation.RecordedIsNumbered | src/core/diagnostics/file-structured-logger.cpp:116-166 | from files without gaps in their numbers, recording leaves none |
| LogRotation.RunKeepsSuffix | src/core/diagnostics/file-structured-logger.cpp:116-166 | over every run from an empty directory, read from the highest number down to the current file the files are a suffix of everything recorded, and nothing is lost before all numbers are used |
| LogRotation.RunKeepsFilesInLimits | src/core/diagnostics/file-structured-logger.cpp:133-166 | over every run: numbered without gaps, at most maximum + 1 files, each within the size limit or holding one line |
| LogRotation.NextIsWellFilled | src/core/diagnostics/file-structured-logger.cpp:133-166 | an older file was closed only because the next line did not fit |
| LogRotation.LastLineIsKept | src/core/diagnostics/file-structured-logger.cpp:124-130 | the line just recorded is always the last one on disk |
| Watching.PollingFileWatcher.Poll | src/core/filesystem/polling-file-watcher.cpp:16-58 | created, modified and deleted paths exactly, each once, sorted; an interrupted poll changes nothing and asks for a rescan |
| Watching.BatchReplays | src/core/filesystem/polling-file-watcher.cpp:28-58 | replaying a batch turns the old paths into the new ones |
| Watching.ModifiedExactly | src/core/filesystem/polling-file-watcher.cpp:28-58 | a path that stays is reported, as modified, if and only if its entry changed in any way; created and deleted paths are reported with their own kind of entry |
| Watching.EventsAreOrdered | src/core/filesystem/polling-file-watcher.cpp:51-53 | events come in the order of their paths, by the first difference |
| Watching.RunReplays | src/core/filesystem/polling-file-watcher.cpp:16-58 | over any run of complete and interrupted polls, replaying everything from the baseline gives the last complete snapshot's paths |
| Watching.BatchIsDetermined | src/core/filesystem/polling-file-watcher.cpp:51-53 | the sorted order leaves no choice: any two correct batches are equal |
| OverlayPlanning.BuildOverlayIndexCandidates | src/core/index/index-overlay.cpp:75-117 | scanned files first and in order, then one deletion per distinct hidden key; metadata and both counters exactly |
| OverlayPlanning.Planner.HideIndexedPath | src/core/index/index-overlay.cpp:58-71 | hides a path unless its key is already hidden |
| OverlayPlanning.Planner.ApplyEntry | src/core/index/index-overlay.cpp:92-114 | one overlay entry: its old path, then its own |
| OverlayPlanning.DeletionsAreDistinct | src/core/index/index-overlay.cpp:58-71 | no key is deleted twice and none is left out |
| OverlayPlanning.DeletedKeysExactly | src/core/index/index-overlay.cpp:92-101 | a plan deletes a key if and only if some entry has an old path of that key, different from its path, or hides its own path of that key |
| OverlayPlanning.DeletionIsFirstHider | src/core/index/index-overlay.cpp:58-71 | the deletion has the path and blob of the first such entry and the status deleted |
| OverlayPlanning.HiddenPathsAreCounted | src/core/index/index-overlay.cpp:58-71 | the counter of hidden paths is the number of such keys |
| OverlayPlanning.ScannedMetadata | src/core/index/index-overlay.cpp:86-114 | the first scanned file of a key carries status and blob of the last entry for it that does not hide content; any other is clean |
| OverlayPlanning.MissingAreCounted | src/core/index/index-overlay.cpp:106-112 | the counter of missing files is the number of such entries without a scanned file |
| OverlayPlanning.LastMetadataIsLast | src/core/index/index-overlay.cpp:113 | the first scanned file of a key gets the metadata of the last entry that applies |
| OverlayPlanning.ScannedAndHidden | src/core/index/index-overlay.cpp:75-117 | in every plan, a scanned candidate and a deletion share a key if and only if some scanned file has the key of some hidden path |

## Left out

- QueueProtocol.NoLostProducerWakeup: needs that no producer's token is stopped or that one call produces, because the code keeps it in no other case; ProducersServedExactlyWhen proves both directions.
- ScanExactness.ScanIsExact: needs that no two paths without repetition decide differently about an entry of the same directory, because the code keeps the rules of the path it takes first; ScanIsExactUnderFirstRules is exact on every graph and LinkOrderDecides shows the difference.
- ScanPruning.PruningIsInvisible: needs contents to have paths inside their directory's, because a linked file need not; PruningRemovesExactly says on every graph what pruning removes.
- Globbing.GlobIsExact: needs the text or the pattern to be free of `*`, because the literal comparison comes first; ExactForTextIff and ExactForPatternIff give the exact conditions.
- PdfText.ShownTextDecodes: needs unambiguous codes, because greedy decoding cuts others wrongly; GreedyIsExactWhenUnambiguous proves both directions.
- Tasks that throw, tasks that submit to their own pool (whose push can block a worker), and the joining of real threads: a worker's task is one step that can always end, which JoinNeverStuck relies on.
- Memory order and the condition variables' own implementation: a critical section is one atomic step.
- Parsing of .gitignore lines: rules are taken as parsed, including their base directory.
- Lexical path normalization, canonical paths and Windows path rules: paths come normalized, and an overlay key is an arbitrary function of the path.
- Directory listing, its sort order and file times: a listing comes in order.
- Symbolic-link, sparse-file and time fields of a streamed entry, and the scanner's debug log.
- Global ignore files and .git/info/exclude: they are the initial rules.
- The storage service behind preferences and saved searches: a map and a list.
- Imported save times beyond the range of the clock, whose conversion overflows in the source: the model takes the clock's last time. The clock counts nanoseconds in 64 bits.
- The sort and unique algorithms of the C++ library: any sort by key is allowed, implemented here by insertion.
- Highlights, context and document section of a search result: one opaque value beside the key.
- Memory limits, throughput metrics, timings, query validation and error texts of the search service.
- Stop requests inside an engine: its results are those it streams before it stops.
- bfchar and bfrange lines of a ToUnicode program, glyph widths, fonts and the placement of PDF text.
- The scalar tables of Windows-1252 and Mac Roman: an arbitrary table of 256 code points.
- Element text, comments and CDATA in XML documents; only tag bodies and text runs are decoded.
- How RTF lines are split from a file, and trimming of the extracted text.
- Serialization and filtering of log events, and failures of rename, remove and write.
- Zlib, SQLite, libgit2, PCRE2, the native watchers, the command line and the user interface.
