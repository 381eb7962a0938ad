# Minecraft launcher core, modelled in Dafny

This project models the decision and assembly code of a Python Minecraft
launcher and proves properties of it. The model covers these parts:

- **Version descriptor shapes.** These are the permissive pydantic records of `src/versions/models.py`.
- **Metadata store.** This covers the first-match manifest lookup and the per-version descriptor cache, which is honoured only on sha1 equality.
- **Library-rule evaluator.** The allow/disallow evaluation depends on rule order, and its closed form is proved.
- **Download manager.**
  - It plans library, asset and client-jar downloads.
  - It streams one download into an explicit file map, checks the SHA-1 and keeps the semaphore's slot count.
  - It gathers task outcomes in task order.
- **Launch-command builder.** It builds the library and native paths, the classpath, the game and JVM arguments, and the final command.
- **Java runtime selection.** This covers the Adoptium URL, parsing of the `java -version` banner, the system scan, the choice among extracted runtimes, and the system → cached → download fallback.
- **Offline login.**
- **Auto-updater decisions.** These are the version test, the choice of release asset, the update file name and the install step.
- **Mod-loader installation.** This covers the installer URLs, the descriptor rewrite, the install dispatch and the natives entry filter.
- **Microsoft sign-in.** This covers:
  - reading the Xbox user hash out of the XSTS token (segment choice and base64 padding);
  - the two Authorization header formats;
  - the choice between silent re-authentication and the device-code flow.

Everything the code asks of its environment is an explicit input:

- the platform strings;
- file existence and directory listings;
- HTTP replies and statuses;
- SHA-1 digests;
- base64/JSON decoding;
- `java -version` and `where java` output;
- MSAL and keyring answers;
- the Xbox and Minecraft services.

These inputs are parameters, often of function type. Paths are strings joined with `/`. Python's exceptions are values of `Common.Error`, and an operation that can raise returns a `Result`.

Code that works by changing state is written as methods:

- `Downloads.DownloadManager` is a class. Its fields are the semaphore counter, the file map and the progress log.
- `Versions.VersionManager` is a class holding the descriptor cache.

Code that loops is written as methods with loop invariants. Each such method is proved equal to a specification function, and that function's properties are proved as lemmas. Pure code is written as functions.

Four behaviours of the code are worth stating up front, because a reader might expect otherwise:

- **Downloads.** `download_file` writes the destination in place. It never skips a file that is already present, and when the SHA-1 check fails it returns false and leaves the mismatching file where it is (`Downloads.MismatchLeavesFile`).
- **Rule evaluation.** `_should_include_library` starts from `allow = True`, so a rule list without any allow rule includes the library (`Versions.VerdictClosedForm`).
- **Native classifiers.** `get_native_path` reads `.path` as an attribute of the raw classifier dict, so a library whose classifier key is found raises `AttributeError` (`Launcher.NativePath`).
- **Download slots.** A `DownloadManager` built with `concurrent_downloads = 0` has a semaphore with no slot, so every download waits forever. The model reports that as the outcome `Blocked` (or `NeverDone` for the asset index).

## Model

| member | source | states |
|---|---|---|
| Common.Lower | src/versions/download_manager.py:64 | `str.lower()` keeps the length and lower-cases each character independently |
| Common.LowerIdempotent | src/modloaders/modloader_manager.py:97 | lower-casing an already lower-cased string changes nothing |
| Common.ContainsAt | src/versions/manager.py:119 | Python's `sub in s` holds exactly when `sub` occurs at some index of `s` |
| Common.Split | src/runtime/java_manager.py:115 | `str.split(sep)` always yields at least one piece |
| Common.SplitHead | src/runtime/java_manager.py:118 | the first piece of a split is a prefix of the input, shorter exactly when the separator occurs, and then followed by it |
| Common.SplitSeveral | src/auth/microsoft.py:167 | a split has a second piece iff the separator occurs |
| Common.SplitJoin | src/core/game_launcher.py:72 | joining the pieces of a split with the separator gives the input back |
| Common.JoinSplit | src/core/game_launcher.py:72 | splitting a join of separator-free parts gives the parts back |
| Common.LStrip | src/updater/auto_updater.py:41 | `lstrip(c)` removes exactly the leading run of `c`: the result is a suffix that does not start with `c`, and everything removed was `c` |
| Common.StrLessIrreflexive | src/updater/auto_updater.py:42 | string `<` is irreflexive |
| Common.StrLessTransitive | src/updater/auto_updater.py:42 | string `<` is transitive |
| Common.StrLessTotal | src/updater/auto_updater.py:42 | two different strings are ordered one way or the other |
| Common.FirstWhereSpec | src/versions/manager.py:42-45 | a first-match search finds nothing iff no element matches; a found element matches and every earlier one does not |
| Models.MinimalMetadata | src/versions/models.py:71-84 | a descriptor needs only `id`; every other field defaults to absent |
| Models.MinimalLibrary | src/versions/models.py:40-45 | a library needs only `name`; downloads, rules, extract and natives default to absent |
| Models.ManifestEntry | src/versions/models.py:56-63 | a manifest entry without the optional fields has no `sha1` and `complianceLevel` 0 |
| Versions.GetVersionInfo | src/versions/manager.py:42-45 | returns the first manifest entry with the requested id, and nothing exactly when no entry has it |
| Versions.CacheHitIgnoresNetwork | src/versions/manager.py:52-56 | on a cache hit the result and the cache do not depend on the network |
| Versions.CacheMissRefetches | src/versions/manager.py:58-70 | on a miss the fetched document overwrites the cache entry and its descriptor is returned; a failed fetch leaves the cache alone and reports the failure |
| Versions.ResolveTwiceIsCached | src/versions/manager.py:52-70 | once a document with the matching sha1 is fetched, resolving again returns the same result from the cache |
| Versions.VersionManager.FetchVersionMetadata | src/versions/manager.py:47-70 | the returned descriptor and the new cache are those of `ResolveDescriptor`; a fetched descriptor is what the cache now holds |
| Versions.CurrentOs | src/versions/manager.py:77-79 | the OS name is the lower-cased system, with darwin reported as `osx` |
| Versions.ResolveDescriptor | src/versions/manager.py:47-70 | the descriptor lookup: cache hit on sha1 equality, else fetch and overwrite; `Versions.CacheHitIgnoresNetwork`, `Versions.CacheMissRefetches` and `Versions.ResolveTwiceIsCached` state it |
| Versions.MatchesRule | src/versions/manager.py:107-123 | whether one rule's OS filter matches; `Versions.MatchesRuleMeaning` states it |
| Versions.MatchesRuleMeaning | src/versions/manager.py:107-123 | a rule without an OS filter matches; otherwise a non-empty name must equal the OS and a non-empty arch must occur inside the machine string |
| Versions.LastAllow | src/versions/manager.py:96-100 | the rule it names is an allow rule of the list; nothing means the list has no allow rule; `Versions.LastAllowIsLast` proves it is the last one |
| Versions.LastAllowIsLast | src/versions/manager.py:96-100 | the rule `LastAllow` names sits at an index that no allow rule follows: it is the last allow rule of the list |
| Versions.VerdictClosedForm | src/versions/manager.py:90-101 | the rule loop excludes on any matching disallow; otherwise the verdict is whether the last allow rule matched, or the start verdict when there is none |
| Versions.Verdict | src/versions/manager.py:90-101 | the rule loop from `allow = True`; `Versions.VerdictClosedForm` states its closed form |
| Versions.MatchingDisallowExcludes | src/versions/manager.py:92-95 | a matching disallow excludes the library whatever rules surround it |
| Versions.AllowAllThenDisallowWindows | src/versions/manager.py:90-101 | [allow-all, disallow windows] is included on linux and excluded on windows |
| Versions.ApplicableLibraries | src/versions/manager.py:83-105 | the libraries whose verdict is include, in order; `Versions.ApplicableLibrariesSpec` states it |
| Versions.ApplicableLibrariesSpec | src/versions/manager.py:83-105 | the kept libraries are an order-preserving subsequence holding exactly the applicable ones; a library with absent or empty rules is always kept |
| Versions.ApplicableLibrariesCount | src/versions/manager.py:83-105 | an applicable library is kept as many times as the input lists it, and any other library never |
| Versions.FilterApplicableLibraries | src/versions/manager.py:72-105 | the two nested loops compute `ApplicableLibraries` for the current OS and lower-cased machine; an absent library list raises `TypeError` |
| Downloads.BodyAppend | src/versions/download_manager.py:38-43 | corrected: streaming two runs of chunks writes the first run's bytes then the second's |
| Downloads.BodyLength | src/versions/download_manager.py:43-44 | the written file has exactly as many bytes as the running counter adds up |
| Downloads.PlainResponseWrittenEmpty | src/versions/download_manager.py:39-43 | as written, a response whose chunks all have a false end-of-HTTP-chunk flag is written as an empty file |
| Downloads.PlainResponseLosesData | src/versions/download_manager.py:39-43 | a concrete three-byte plain response is empty under the loop as written and complete under the corrected loop |
| Downloads.ProgressMonotone | src/versions/download_manager.py:44-46 | corrected: one notification per chunk; the reported count never decreases, and the last one equals the file's length |
| Downloads.Body | src/versions/download_manager.py:38-46 | corrected: the bytes every received chunk adds, in order; `Downloads.BodyAppend` and `Downloads.BodyLength` state its properties |
| Downloads.BodyAsWritten | src/versions/download_manager.py:39-43 | the bytes the loop as written keeps: only chunks whose end-of-HTTP-chunk flag is true; `Downloads.PlainResponseLosesData` contrasts it with `Body` |
| Downloads.FetchOutcome | src/versions/download_manager.py:26-55 | corrected: `Raised` on a missing URL or reply, a status of 400 or more, or a stream that breaks off; otherwise true unless a hash is expected and the digest differs; `Downloads.ReturnedMeansWritten` states it |
| Downloads.AfterFetch | src/versions/download_manager.py:36-46 | corrected: an accepted response truncates the destination and writes `Body`, even when the stream breaks off; any other reply leaves the files alone; `Downloads.AfterAllUntouched` states it |
| Downloads.InterruptedLeavesPartialFile | src/versions/download_manager.py:36-46 | a stream that breaks off raises, and the destination keeps the chunks received before the break |
| Downloads.Accepted | src/versions/download_manager.py:31-32 | a response is streamed exactly when there is a URL, a reply and a status below 400 |
| Downloads.ReturnedMeansWritten | src/versions/download_manager.py:31-53 | a download returns (rather than raises) exactly when its response was accepted and its stream did not break off, and then the destination holds the body |
| Downloads.NoHashMeansSuccess | src/versions/download_manager.py:49-53 | without an expected hash, a download that returns reports true |
| Downloads.MismatchLeavesFile | src/versions/download_manager.py:49-51 | a false result leaves the mismatching body at the destination |
| Downloads.AfterAllUntouched | src/versions/download_manager.py:83 | a path that no task targets is unchanged after all tasks, whatever each task's outcome |
| Downloads.VerifySha1 | src/versions/download_manager.py:57-64 | feeding the file in 8192-byte blocks digests the whole file, and the result is digest == expected hash lower-cased; a missing file raises |
| Downloads.Artifacts | src/versions/download_manager.py:71-75 | at most one artifact per library |
| Downloads.ArtifactsSpec | src/versions/download_manager.py:71-75 | an artifact is planned iff some library has it under `downloads.artifact` |
| Downloads.ArtifactsSnoc | src/versions/download_manager.py:71-75 | appending a library appends its artifact, if it has one, at the end of the plan |
| Downloads.ArtifactsInLibraryOrder | src/versions/download_manager.py:71-75 | the plan is the libraries' artifacts in library order, one per library that has one: a strictly increasing map from planned artifacts onto those libraries |
| Downloads.LibraryTask | src/versions/download_manager.py:77-78 | one artifact's task: `<root>/libraries/<path>` with its url and sha1, `TypeError` without a path; `Downloads.LibraryTasksSpec` states it |
| Downloads.LibraryTasks | src/versions/download_manager.py:69-81 | the tasks of all artifacts, or the first artifact's error; `Downloads.LibraryTasksSpec` states it |
| Downloads.LibraryTasksSpec | src/versions/download_manager.py:75-81 | one task per artifact, in order, to `<root>/libraries/<path>` with the artifact's url and sha1; planning fails exactly when an artifact has no path |
| Downloads.LibraryTasksErrPrefix | src/versions/download_manager.py:77 | once an artifact without a path is met, the whole plan fails with that error |
| Downloads.PlanLibraryTasks | src/versions/download_manager.py:69-81 | the planning loop skips libraries without an artifact and yields exactly `LibraryTasks` of the artifacts |
| Downloads.HashPrefix | src/versions/download_manager.py:149 | `h[:2]` is a prefix of `h` of length two, or all of a shorter `h` |
| Downloads.AssetTask | src/versions/download_manager.py:148-154 | an asset is checked against its own hash |
| Downloads.AssetDestShape | src/versions/download_manager.py:151 | an asset's destination is `objects/<h[:2]>/` followed by its hash |
| Downloads.AssetDestInjective | src/versions/download_manager.py:148-154 | two assets share a destination only when they have the same hash |
| Downloads.AssetTasks | src/versions/download_manager.py:145-155 | one task per index object, in index order |
| Downloads.AssetTasksShareOnlyByHash | src/versions/download_manager.py:147-155 | two index objects target the same file iff their hashes are equal |
| Downloads.ClientUrlIgnoredAsWritten | src/versions/download_manager.py:88-102 | as written, a descriptor whose client entry names a URL and sha1 is fetched from the archival URL without a hash |
| Downloads.JarTaskAsWritten | src/versions/download_manager.py:88-102 | the jar task the code builds: always the archival URL without a hash; `Downloads.ClientUrlIgnoredAsWritten` states it |
| Downloads.JarTask | src/versions/download_manager.py:88-103 | corrected: the client entry's URL and sha1 when present, the archival URL otherwise; `Downloads.JarTaskUsesClientUrl` states it |
| Downloads.JarOutcome | src/versions/download_manager.py:96-112 | corrected: a direct client download keeps its outcome; the archival fallback turns an exception into false; `Downloads.FallbackNeverRaises` states it |
| Downloads.AssetIndexPlan | src/versions/download_manager.py:114-131 | nothing for absent or empty assets, an empty index for a legacy string, and otherwise a fetch of the index to `assets/indexes/<id>.json`; `Downloads.DownloadManager.DownloadAssetIndex` states it |
| Downloads.JarTaskUsesClientUrl | src/versions/download_manager.py:88-103 | corrected: the client entry's URL and sha1 are used when present, the archival URL without a hash otherwise, always to `versions/<id>/<id>.jar` |
| Downloads.FallbackNeverRaises | src/versions/download_manager.py:100-110 | the archival fallback turns any exception into false |
| Downloads.DownloadManager.constructor | src/versions/download_manager.py:13-16 | all semaphore slots are free, the file map is the given one and no progress has been reported |
| Downloads.DownloadManager.StreamToFile | src/versions/download_manager.py:36-46 | corrected: the destination is truncated and then holds every chunk's bytes in order; with a callback, one running-count notification per chunk is appended |
| Downloads.DownloadManager.DownloadFile | src/versions/download_manager.py:13-55 | corrected: with no semaphore slot the call is `Blocked` and changes nothing; otherwise the outcome is `FetchOutcome` (a stream that breaks off raises after writing what arrived), files change only as `AfterFetch` says, and the semaphore count is the same on every exit |
| Downloads.DownloadManager.Gather | src/versions/download_manager.py:83 | corrected: every task is `Blocked` and nothing is written when there is no semaphore slot; otherwise one outcome per task in task order, each that task's own outcome; the file map is that of running all tasks |
| Downloads.DownloadManager.DownloadLibraries | src/versions/download_manager.py:66-83 | corrected: a planning failure raises before anything is written; otherwise the outcomes of the planned tasks in order |
| Downloads.DownloadManager.DownloadAssets | src/versions/download_manager.py:139-157 | corrected: one outcome per index object in index order, each fetched as its `AssetTask` |
| Downloads.DownloadManager.DownloadVersionJar | src/versions/download_manager.py:85-112 | corrected: `Blocked` without a semaphore slot; otherwise downloads the jar task of `JarTask`; only the archival fallback swallows an exception into false |
| Downloads.DownloadManager.DownloadAssetIndex | src/versions/download_manager.py:114-137 | corrected: nothing for absent or empty assets; an empty index for a legacy string; for an object, the parsed file when the download returned true, nothing when it returned false, the error when it raised, and `NeverDone` when the download has no semaphore slot |
| Launcher.MinecraftDir | src/core/game_launcher.py:13-14 | the given directory, or `~/.minecraft` when none is given; `Launcher.LibraryPathIsDownloadDest` states its use |
| Launcher.LibraryPath | src/core/game_launcher.py:19-26 | nothing without downloads or artifact; `Path / None` raises exactly for an artifact without a path; otherwise a path under the libraries directory |
| Launcher.LibraryPathIsDownloadDest | src/core/game_launcher.py:13-26 | the downloader always writes under `~/.minecraft`; a pathless artifact fails alike in both, and otherwise the launcher looks for a library where it was downloaded iff its `minecraft_dir` is `~/.minecraft`, which the default launcher's is |
| Launcher.LibrariesUnderOneRoot | src/core/game_launcher.py:15-26 | two Minecraft directories give the same library file only when they are the same directory |
| Launcher.OsClassifier | src/core/game_launcher.py:37-41 | the classifier OS name: `darwin` becomes `macos`, windows and linux stay, any other system is kept; `Launcher.ClassifierKeys` states its use |
| Launcher.ClassifierKey | src/core/game_launcher.py:33-47 | the lower-cased OS classifier followed by the arch suffix; `Launcher.ClassifierKeys` states it |
| Launcher.ClassifierKeys | src/core/game_launcher.py:33-47 | the key is the OS classifier of the lower-cased system, with `-x86` appended exactly when the lower-cased machine contains "64" |
| Launcher.AppleSiliconKey | src/core/game_launcher.py:33-47 | a Darwin `arm64` machine asks for the `macos-x86` natives |
| Launcher.ArchSuffixMeaning | src/core/game_launcher.py:43-45 | the `-x86` suffix is chosen iff the machine string contains "64" |
| Launcher.NativePath | src/core/game_launcher.py:28-54 | nothing unless natives, downloads and classifiers are present and the key is found; a found key raises `AttributeError` on `.path` |
| Launcher.LibraryEntries | src/core/game_launcher.py:65-69 | the resolved library paths that exist; `Launcher.LibraryEntriesSpec` states it |
| Launcher.ClasspathEntries | src/core/game_launcher.py:58-69 | the version jar if it exists, then `LibraryEntries`; `Launcher.ClasspathSpec` states it |
| Launcher.LibraryEntriesSpec | src/core/game_launcher.py:65-69 | the library entries are the resolved paths that exist, in order; building fails iff some library's path raises |
| Launcher.LibraryEntriesCount | src/core/game_launcher.py:65-69 | an existing resolved path appears as many times as the libraries resolve to it, and a missing one never |
| Launcher.AssembleClasspath | src/core/game_launcher.py:56-72 | the loop yields the classpath entries joined by the path separator, or the first error |
| Launcher.ClasspathSpec | src/core/game_launcher.py:58-72 | every entry exists; the version jar is first when it exists; every resolved library path that exists is included |
| Launcher.ClasspathSplitsBack | src/core/game_launcher.py:72 | splitting the classpath at the separator gives back the entries when none contains it |
| Launcher.AssetIndexId | src/core/game_launcher.py:120-125 | `pre-1.6` without assets, the string itself for string assets, the object's `id` otherwise; `Launcher.VersionLookups` states it |
| Launcher.VersionType | src/core/game_launcher.py:132 | the descriptor's type, or `release` when it is absent or empty; `Launcher.VersionLookups` states it |
| Launcher.AuthArgs | src/core/game_launcher.py:104-117 | the account options; `Launcher.OnlineOptions` and `Launcher.OfflineOptions` state them |
| Launcher.VersionArgs | src/core/game_launcher.py:119-133 | the version options; `Launcher.VersionOptions` and `Launcher.VersionLookups` state them |
| Launcher.GameArgs | src/core/game_launcher.py:101-138 | account options then version options; `Launcher.GameArgsOnline` and `Launcher.GameArgsOffline` state them |
| Launcher.VersionOptions | src/core/game_launcher.py:127-133 | the version block reads as five option/value pairs |
| Launcher.VersionLookups | src/core/game_launcher.py:119-133 | the game reads the id, game dir, asset index (pre-1.6 / string / object id) and type-or-release from the version block |
| Launcher.VersionBlockNoAccount | src/core/game_launcher.py:127-133 | the version block names no user and no token |
| Launcher.OnlineOptions | src/core/game_launcher.py:106-111 | with a non-empty token the arguments start with access token, uuid (id or "") and username |
| Launcher.OnlineVersionLookups | src/core/game_launcher.py:106-133 | behind the account options the version block reads as on its own |
| Launcher.GameArgsOnline | src/core/game_launcher.py:101-138 | an online profile yields its token, uuid, name and the version options, with no demo switch |
| Launcher.OfflineOptions | src/core/game_launcher.py:112-117 | without a token the arguments start with an empty uuid and the demo switch |
| Launcher.GameArgsOffline | src/core/game_launcher.py:112-133 | any other profile yields an empty uuid, demo mode, the version options, and no user or token |
| Launcher.JvmArgs | src/core/game_launcher.py:74-99 | the Java executable, the eight fixed flags, then the game arguments |
| Launcher.CommandAsWritten | src/core/game_launcher.py:145-155 | the command in the order the code writes it; `Launcher.CommandAsWrittenMisplaced` states it |
| Launcher.CommandAsWrittenMisplaced | src/core/game_launcher.py:145-155 | as written, the command starts with `--add-exports`, has the Java path at index 6 and the game arguments both before `-cp` and after the main class |
| Launcher.PrepareLaunch | src/core/game_launcher.py:140-161 | the launch data is the command as written with the joined classpath and the minecraft directory, or the classpath or argument error |
| Launcher.LaunchCommand | src/core/game_launcher.py:145-155 | corrected: the Java path first, `-cp`, the classpath and the main class at 15-17, then the game arguments once |
| Launcher.LaunchCommandRearranges | src/core/game_launcher.py:145-155 | the written command is the corrected one rearranged, plus one extra copy of the game arguments |
| Launcher.PrepareLaunchCorrected | src/core/game_launcher.py:140-161 | the launch data with the corrected command |
| JavaRuntime.OsId | src/runtime/java_manager.py:55-67 | Adoptium's OS id: `darwin` becomes `mac`, any other system is kept |
| JavaRuntime.ArchId | src/runtime/java_manager.py:60-68 | Adoptium's arch id: `amd64`/`x86_64` become `x64`, `i386` `x86`, `arm64` `aarch64`, anything else is kept |
| JavaRuntime.AdoptiumUrl | src/runtime/java_manager.py:49-70 | the latest Java 17 JDK URL for the platform; `JavaRuntime.SplitAround` and `JavaRuntime.AdoptiumUrlInjective` state it |
| JavaRuntime.SplitAround | src/runtime/java_manager.py:70 | the OS and arch ids are separate path segments of the URL |
| JavaRuntime.AdoptiumUrlInjective | src/runtime/java_manager.py:49-70 | two platforms share a download URL only when they map to the same OS and arch ids |
| JavaRuntime.FirstLine | src/runtime/java_manager.py:115 | the first line of `line\nrest` is `line` |
| JavaRuntime.SecondQuoted | src/runtime/java_manager.py:118 | the text between the first two quotes of `a"v"b` is `v` |
| JavaRuntime.ParseJavaVersion | src/runtime/java_manager.py:110-122 | the quoted version of the banner's first line; `JavaRuntime.ParseJavaVersionMeaning` states it |
| JavaRuntime.QuotedMeaning | src/runtime/java_manager.py:118-121 | a line yields a quoted text iff it has a quote; the text is quote-free, starts right after the first quote and ends at the next quote or the end of the line |
| JavaRuntime.ParseJavaVersionMeaning | src/runtime/java_manager.py:110-122 | for every probe: a version is reported iff the run succeeded and the first stderr line contains "version" and a quote; the version is the text after the first quote, up to the next quote or the end of the line |
| JavaRuntime.ParseJavaVersionReads | src/runtime/java_manager.py:110-122 | a successful run whose first stderr line is a version banner `a"v"b` reports `v` |
| JavaRuntime.ParseJavaVersionFails | src/runtime/java_manager.py:112-122 | a failed run, or a first line without "version", reports nothing |
| JavaRuntime.SystemJava | src/runtime/java_manager.py:18-47 | the `where java` answer, else the scan of the common directories; `JavaRuntime.GetSystemJava` and `JavaRuntime.SystemScanSpec` state it |
| JavaRuntime.ScanBase | src/runtime/java_manager.py:41-45 | the scan of one base returns the first existing `bin/java(.exe)` of a java-named subdirectory |
| JavaRuntime.GetSystemJava | src/runtime/java_manager.py:18-47 | the `where java` answer (on Windows its sibling `java.exe`), else the first existing candidate of the four directories in order |
| JavaRuntime.ParentOfJoin | src/runtime/java_manager.py:27 | the parent of `dir/name` is `dir` |
| JavaRuntime.WindowsProbeSibling | src/runtime/java_manager.py:26-27 | on Windows the reported executable is replaced by `java.exe` in its directory |
| JavaRuntime.ScanOverSpec | src/runtime/java_manager.py:39-47 | the scan returns an existing candidate, and nothing iff no candidate exists |
| JavaRuntime.SystemScanSpec | src/runtime/java_manager.py:31-47 | without a `where` answer, the result is an existing executable of a java-named subdirectory of a common directory, and nothing iff none exists |
| JavaRuntime.DownloadJava | src/runtime/java_manager.py:72-108 | nothing on a non-200 reply; otherwise the first existing `bin/java(.exe)` of a top-level extracted directory |
| JavaRuntime.DownloadedJavaExists | src/runtime/java_manager.py:101-108 | a downloaded runtime exists and comes from the extracted tree |
| JavaRuntime.Ensured | src/runtime/java_manager.py:124-145 | system, then cached, then download; a download yielding nothing raises `Exception("Could not find or download suitable Java runtime")`; `JavaRuntime.EnsuredSpec` states it |
| JavaRuntime.EnsuredSpec | src/runtime/java_manager.py:124-145 | the system runtime wins if it reports 17, else the first cached 17; any runtime that was not downloaded reports 17; the call fails iff no stage yields one, with the download's own error or else `Exception("Could not find or download suitable Java runtime")` |
| JavaRuntime.FirstQualifying | src/runtime/java_manager.py:134-138 | the loop returns the first cached runtime whose version starts with "17" |
| JavaRuntime.EnsureJava | src/runtime/java_manager.py:124-145 | system, then cached (`bin/java` matches before `bin/java.exe` ones), then download, as `Ensured` says, including its error text |
| OfflineAuth.Authenticate | src/auth/offline.py:9-20 | a name is accepted iff it has 1 to 16 characters, otherwise `ValueError("Invalid username for offline mode")`; the profile has id = name = the username, type offline, an empty token and no other key |
| OfflineAuth.SampleLogin | tests/test_auth.py:9-13 | "testuser" logs in with that name and type offline |
| OfflineAuth.OfflineProfileLaunchesDemo | src/auth/offline.py:15-20 | an offline profile launches in demo mode with an empty uuid and no user name |
| Updater.CurrentVersion | src/updater/auto_updater.py:30-36 | the package version when importable, "0.1.0" otherwise |
| Updater.ShouldUpdate | src/updater/auto_updater.py:38-42 | the tag without leading `v` compares greater than the current version as a string; the lemmas below state it |
| Updater.ShouldUpdateIsTextual | src/updater/auto_updater.py:38-42 | the test is textual: v0.10.0 is not newer than 0.9.0, and v0.9.0 is newer than 0.10.0 |
| Updater.StripTagged | src/updater/auto_updater.py:41 | stripping the "v" off a tagged version gives the version |
| Updater.SameVersionNoUpdate | src/updater/auto_updater.py:38-42 | a release tagged with the current version, with or without "v", is no update |
| Updater.UpdateNeverBack | src/updater/auto_updater.py:38-42 | after updating to a newer tag, the old tag is not an update |
| Updater.UpdateFileName | src/updater/auto_updater.py:48-56 | `launcher` plus the platform suffix plus `.exe`; `Updater.UpdateFileNames` states it |
| Updater.UpdateFileNames | src/updater/auto_updater.py:48-57 | the three named platforms get three different file names; any other gets `launcher.exe` |
| Updater.DownloadUpdate | src/updater/auto_updater.py:44-77 | a file is produced exactly on a 200 reply |
| Updater.ChooseAsset | src/updater/auto_updater.py:109-122 | the loop with `break` picks `ChosenUrl`: the first platform asset, else the first asset |
| Updater.ChosenUrl | src/updater/auto_updater.py:109-122 | the first asset naming the platform, else the first asset; `Updater.ChosenUrlSpec` states it |
| Updater.ChosenUrlSpec | src/updater/auto_updater.py:109-125 | off Windows and Linux the first asset is taken; a chosen URL is one of the assets' URLs; nothing is chosen iff there are no assets |
| Updater.CheckAndUpdate | src/updater/auto_updater.py:102-131 | no release or no newer tag: no download; no URL: nothing; otherwise the download's outcome |
| Updater.InstallUpdateAsWritten | src/updater/auto_updater.py:79-85 | `install_update` as written: `aiofiles.copy` does not exist, so it raises `AttributeError`; `Updater.UpdateNeverReportedAsWritten` states it |
| Updater.CheckAnswerAsWritten | src/updater/auto_updater.py:128-132 | what `check_and_update` answers as written: the installer's outcome for a downloaded update, false otherwise |
| Updater.UpdateNeverReportedAsWritten | src/updater/auto_updater.py:85-131 | as written, `check_and_update` never answers true, and it raises `AttributeError` exactly when an update was downloaded |
| Updater.InstallUpdate | src/updater/auto_updater.py:79-100 | corrected: the update is copied to `launcher_updated.exe` in the current directory, which differs from the `launcher.exe` the script in `update.bat` moves it over, and the answer is true |
| Updater.CheckAnswer | src/updater/auto_updater.py:128-132 | corrected: the installer's answer for a downloaded update, false otherwise |
| Updater.CorrectedUpdateReportsInstall | src/updater/auto_updater.py:79-132 | corrected: `check_and_update` never raises and answers true exactly when an update was downloaded and installed |
| Updater.InstalledMeansNewer | src/updater/auto_updater.py:102-131 | an installed update came from a newer tag and one of the release's assets, and was written under the platform's file name |
| ModLoaders.ForgeInstallerUrl | src/modloaders/modloader_manager.py:17 | the Forge maven URL of `forge-<v>-installer.jar` under version `v`; `ModLoaders.ForgeTemplatesInjective` states it |
| ModLoaders.ForgeInstallerDest | src/modloaders/modloader_manager.py:18 | `<modloaders>/forge/<v>-installer.jar`; `ModLoaders.ForgeTemplatesInjective` states it |
| ModLoaders.FabricInstallerDest | src/modloaders/modloader_manager.py:39 | `<modloaders>/fabric/<installer version>.jar`; `ModLoaders.FabricDownload` states its use |
| ModLoaders.ForgeTemplatesInjective | src/modloaders/modloader_manager.py:17-18 | different Forge versions get different installer URLs and files |
| ModLoaders.ForgeDownloadAsWritten | src/modloaders/modloader_manager.py:15-27 | as written: a 200 reply raises `AttributeError` at `aiohttp.open`, anything else gives nothing; `ModLoaders.InstallerNeverSavedAsWritten` states it |
| ModLoaders.FabricDownloadAsWritten | src/modloaders/modloader_manager.py:29-47 | as written: a 200 reply for the first installer raises at `aiohttp.open`; `ModLoaders.InstallerNeverSavedAsWritten` states it |
| ModLoaders.ForgeDownload | src/modloaders/modloader_manager.py:15-27 | corrected: a 200 reply saves the installer at its destination, anything else gives nothing |
| ModLoaders.FabricDownload | src/modloaders/modloader_manager.py:29-47 | corrected: the first listed installer is saved under its version on a 200 reply; an empty list gives nothing |
| ModLoaders.InstallerNeverSavedAsWritten | src/modloaders/modloader_manager.py:21-46 | as written, neither installer download ever yields a file, and a Forge 200 reply raises |
| ModLoaders.Rewritten | src/modloaders/modloader_manager.py:66-84 | the rewritten descriptor or the error of a non-list `libraries`; `ModLoaders.RewrittenFails`, `ModLoaders.RewrittenChanges` and `ModLoaders.RewrittenKeeps` state it |
| ModLoaders.RewrittenFails | src/modloaders/modloader_manager.py:71-73 | the rewrite raises exactly when `libraries` is present and not a list |
| ModLoaders.RewrittenChanges | src/modloaders/modloader_manager.py:66-84 | the id, the arguments (lower-cased type, fixed forge version) and the main class are replaced, and the old libraries keep their order with exactly one Forge library after them |
| ModLoaders.RewrittenKeeps | src/modloaders/modloader_manager.py:66-84 | the keys are the base's plus the four rewritten ones, and every other key is copied unchanged |
| ModLoaders.ForgeLibraryUrlIsPath | src/modloaders/modloader_manager.py:74-82 | the appended library is fetched from the Forge maven at the path it is stored under |
| ModLoaders.RunInstaller | src/modloaders/modloader_manager.py:49-92 | nothing without a base descriptor; otherwise the rewritten descriptor and the `versions/<mc>-<type>/<mc>-<type>.json` path, or the rewrite's error |
| ModLoaders.AfterInstaller | src/modloaders/modloader_manager.py:99-105 | corrected: a saved installer runs `run_installer` and its descriptor is parsed; no installer gives nothing; `ModLoaders.InstallModloaderSpec` states it |
| ModLoaders.InstallModloader | src/modloaders/modloader_manager.py:94-116 | corrected: the dispatch on the lower-cased type; `ModLoaders.InstallModloaderSpec` states it |
| ModLoaders.InstallModloaderSpec | src/modloaders/modloader_manager.py:94-116 | another type or no base descriptor gives nothing; a result is the parsed rewrite of the base, reached through a successful installer download |
| ModLoaders.InstallModloaderCaseInsensitive | src/modloaders/modloader_manager.py:97-116 | for every base descriptor, a type and its lower-cased form take the same branch: the Forge installer, the Fabric installer, or nothing. Only the branch ignores case, since the rewritten id keeps the type as given; without a base descriptor the two outcomes are equal |
| ModLoaders.InstallNeverSucceedsAsWritten | src/modloaders/modloader_manager.py:94-116 | with the downloads as written, no install yields a descriptor |
| ModLoaders.ForgeInstallSucceeds | src/modloaders/modloader_manager.py:97-105 | with the corrected download, a Forge install whose reply is 200 and whose base rewrites and parses yields that descriptor |
| ModLoaders.ModloaderVersions | src/modloaders/modloader_manager.py:118-136 | the fixed Forge list, every Fabric loader version in order, and nothing for another type |
| ModLoaders.IsJar | src/modloaders/modloader_manager.py:140 | the path ends in `.jar`; `ModLoaders.ExtractNatives` states its use |
| ModLoaders.NativeEntries | src/modloaders/modloader_manager.py:143-145 | the entries kept by the filter; `ModLoaders.NativeEntriesSpec` states it |
| ModLoaders.NativeEntriesSpec | src/modloaders/modloader_manager.py:143-145 | exactly the entries without "META-INF" in their name, in archive order |
| ModLoaders.NativeEntriesCount | src/modloaders/modloader_manager.py:143-145 | an entry without "META-INF" is extracted as many times as the archive lists it, and any other entry never |
| ModLoaders.ExtractEntries | src/modloaders/modloader_manager.py:143-145 | the entry loop extracts `NativeEntries` |
| ModLoaders.ExtractNatives | src/modloaders/modloader_manager.py:138-145 | nothing unless the library is an existing `.jar`; otherwise the non-META-INF entries |
| MicrosoftAuth.Payload | src/auth/microsoft.py:167 | the second dot-separated segment; `IndexError` iff the token has no dot |
| MicrosoftAuth.PayloadOfJwt | src/auth/microsoft.py:167 | `header.payload.signature` yields `payload` |
| MicrosoftAuth.Repeat | src/auth/microsoft.py:169 | `c * n` has length `n` and consists of `c` |
| MicrosoftAuth.Pad | src/auth/microsoft.py:169 | adds 0 to 3 `=` to reach a multiple of four, keeps the prefix, and leaves an aligned payload unchanged |
| MicrosoftAuth.PadMinimal | src/auth/microsoft.py:169 | no shorter padding reaches a multiple of four |
| MicrosoftAuth.PadIdempotent | src/auth/microsoft.py:169 | padding twice is padding once |
| MicrosoftAuth.Field | src/auth/microsoft.py:172 | `obj[key]` succeeds iff the value is an object with that key; a missing key raises `KeyError` |
| MicrosoftAuth.First | src/auth/microsoft.py:172 | `list[0]` succeeds on a non-empty list with its first item |
| MicrosoftAuth.DictIndexDescribed | src/auth/microsoft.py:172 | `d[0]` on a dict raises `KeyError(0)`, whose text is `0` |
| MicrosoftAuth.UserHash | src/auth/microsoft.py:163-172 | payload, padding, decoding and the `DisplayClaims`/`xui`/`0`/`uhs` lookups in order; the two lemmas below state it |
| MicrosoftAuth.UserHashNeedsTwoSegments | src/auth/microsoft.py:163-172 | a token without a dot fails with `IndexError` before decoding |
| MicrosoftAuth.UserHashReadsClaim | src/auth/microsoft.py:163-172 | a well-formed token whose padded payload decodes to the claims yields the first `uhs` |
| MicrosoftAuth.XblHeader | src/auth/microsoft.py:94 | `XBL3.0 x=<user hash>;<xsts token>`; `MicrosoftAuth.XblHeaderInjective` states it |
| MicrosoftAuth.BearerHeader | src/auth/microsoft.py:107 | `Bearer <access token>`; `MicrosoftAuth.BearerHeaderInjective` states it |
| MicrosoftAuth.XblHeaderInjective | src/auth/microsoft.py:94 | the login header determines the user hash and the XSTS token |
| MicrosoftAuth.BearerHeaderInjective | src/auth/microsoft.py:107 | the profile header determines the access token |
| MicrosoftAuth.XboxChain | src/auth/microsoft.py:131-135 | Xbox Live, XSTS, user hash, Minecraft login and profile in order, stopping at the first error |
| MicrosoftAuth.DeviceFlow | src/auth/microsoft.py:139-156 | start the flow, poll, record a refresh token when present, then the Xbox chain of the polled token |
| MicrosoftAuth.Describe | src/auth/microsoft.py:160-161 | `str(e)` of the modelled exception kinds |
| MicrosoftAuth.Wrapped | src/auth/microsoft.py:160-161 | a profile passes through; an error becomes `Exception("Authentication failed: " + str(e))` |
| MicrosoftAuth.AuthenticateFullFlow | src/auth/microsoft.py:117-161 | silent sign-in is tried iff a refresh token and an account exist; the device flow runs iff the silent result is not used; a refresh token is stored only from a device-flow result holding one; every failure carries the "Authentication failed: " prefix; the result is `Wrapped` of the Xbox chain of the silent token when the silent result is used, and of the device flow otherwise |
| MicrosoftAuth.SilentFailureIsFinal | src/auth/microsoft.py:124-136 | a usable silent result whose chain fails is reported, not retried through the device flow |
| MicrosoftAuth.SilentOnlyForFirstAccount | src/auth/microsoft.py:121-129 | the outcome depends on the silent answer only for the first account, and only when a refresh token and an account exist |
| MicrosoftAuth.DeviceFlowUnusedAfterSilent | src/auth/microsoft.py:124-136 | when the silent result is usable, the device-code flow has no effect on the outcome |
| MicrosoftAuth.DeviceFlowErrorMessage | src/auth/microsoft.py:37-38 | a refused device flow fails with "Authentication failed: Device flow error: " and its description |

## Left out

- Concurrency: the `asyncio.Semaphore` and `asyncio.gather` run tasks concurrently. The model runs them one after another and keeps the slot counter and the order of the results, not interleavings.
- Downloads.DownloadManager.Gather: the tasks run one after another, so when two tasks write the same destination the final file map is the one of task order; a concurrent run may interleave the writes differently. With no semaphore slot every task is `Blocked`, as one task waiting forever would stop the whole `gather`.
- Downloads.DownloadManager: the manager streams with the corrected loop (`Downloads.Body`) and chooses the jar with the corrected `Downloads.JarTask`. Only `Downloads.BodyAsWritten` and `Downloads.JarTaskAsWritten` model the code as written.
- HTTP, aiofiles and file I/O, `mkdir`, `json.load`/`json.dump`, pydantic parsing, SHA-1, base64: all are parameters. SHA-1 is a function from bytes to a hex string, and descriptors arrive already parsed. An asset index entry always carries its `hash`, so the `KeyError` that `asset_info['hash']` raises for an entry without one (src/versions/download_manager.py:148) is not modelled.
- Common.Lower: only ASCII letters are lower-cased; Python's `str.lower` also maps non-ASCII letters.
- JavaRuntime.ParseJavaVersion: subprocesses are not run. `java -version` is a probe returning the exit code and stderr, and `where java` is given as its first output line; the `strip()` of that output is not modelled.
- JavaRuntime.DownloadJava: the archive download and `zipfile` extraction are not modelled. The method receives the extracted tree as a file-system value, and the archive's file name is not modelled.
- Updater.DownloadUpdate: the bytes written are not modelled, only the file name and the status test. The streaming loop at src/updater/auto_updater.py:68-75 and src/runtime/java_manager.py:87-94 has the same end-of-HTTP-chunk defect as `Downloads.BodyAsWritten`.
- `get_latest_release`, `fetch_manifest` and `launch_game` (process spawn) are I/O only; their results are inputs or not modelled.
- Updater.InstallUpdate: the batch script's text is recorded only as its path and the two file names it moves, and the `subprocess.Popen` call is not modelled.
- The `env` entry of the launch data is a copy of the process environment and is not modelled.
- `get_modloader_versions` downloads and ignores an HTML page for Forge; the model keeps only the returned lists.
- MicrosoftAuth.AuthenticateFullFlow: MSAL, the keyring and the Xbox/Minecraft HTTP endpoints are parameters. Each token endpoint stands for the POST and its `["Token"]` lookup. Only the refresh token written to the keyring is recorded, and the prints of the device code are left out.
- MicrosoftAuth.Describe: `str(e)` of exception kinds other than a bare `Exception` and `KeyError` is a parameter.
- The f-string rendering of a user-hash claim that is not a string is a parameter.
- Paths are strings joined with `/`; Windows backslashes and `Path` normalisation are not modelled.
- The `java_version` argument of `_matches_rule` is never read by the source and is omitted.
- The Qt user interface and the logging setup are outside the modelled core.

## Findings

| source | as written | input that shows it | evidently intended | confidence | as-written member | corrected member |
|---|---|---|---|---|---|---|
| src/versions/download_manager.py:39-42 | the stream loop skips every chunk whose end-of-HTTP-chunk flag is false | a response with a Content-Length, delivered as one chunk `[1,2,3]` with flag false, is written as an empty file | write every received chunk | high, not executed | Downloads.PlainResponseLosesData | Downloads.DownloadManager.StreamToFile |
| src/versions/download_manager.py:91-100 | `getattr(client, 'url', None)` on the `client` dict is always `None` | a 1.20.1 descriptor whose client entry names a URL and sha1 is fetched from the archival S3 URL with no hash check | read `client["url"]` and `client["sha1"]` | high, not executed | Downloads.ClientUrlIgnoredAsWritten | Downloads.JarTaskUsesClientUrl |
| src/core/game_launcher.py:145-155 | the module-opening flags precede the Java executable, and the game arguments appear both among the JVM options and after the main class | any profile: the command's program slot is `--add-exports` | Java path, module openings, JVM flags, `-cp` and classpath, main class, game arguments once | high, not executed | Launcher.CommandAsWrittenMisplaced | Launcher.LaunchCommandRearranges |
| src/modloaders/modloader_manager.py:24 | the installer is written through `aiohttp.open`, which aiohttp does not have (the same call is at line 44) | a Forge installer reply with status 200 raises `AttributeError`, so no install ever succeeds | `aiofiles.open` | high, not executed | ModLoaders.InstallNeverSucceedsAsWritten | ModLoaders.ForgeInstallSucceeds |
| src/updater/auto_updater.py:85 | `install_update` awaits `aiofiles.copy`, which aiofiles does not have | any release with a newer tag whose asset downloads with status 200: `check_and_update` raises `AttributeError` instead of answering true | copy the file (for example with `shutil.copy`) | high, not executed | Updater.UpdateNeverReportedAsWritten | Updater.CorrectedUpdateReportsInstall |
