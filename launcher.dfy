/** Launch-command assembly of `src/core/game_launcher.py`. The launcher's
    directories are fixed by its `minecraft_dir`, so each operation takes that
    root as a parameter; file existence, the platform strings and
    `os.pathsep` are parameters too. An argument list may hold Python's
    `None` (an asset object without `id`, a descriptor without `mainClass`),
    so its elements are `Option<string>`. */
module Launcher {
  import opened Common
  import opened Models
  import Downloads

  /** One element of an argument list; `None` is Python's `None`. */
  type Arg = Option<string>

  function LibrariesDir(root: Path): Path { Join(root, "libraries") }

  function AssetsDir(root: Path): Path { Join(root, "assets") }

  function VersionsDir(root: Path): Path { Join(root, "versions") }

  // ================================================================ library paths

  /** `get_library_path`: nothing without downloads or artifact, otherwise the
      artifact path under the libraries directory; `Path / None` raises. */
  function LibraryPath(root: Path, lib: Library): (r: Result<Option<Path>, Error>)
    ensures lib.downloads.None? || lib.downloads.value.artifact.None? ==> r == Ok(None)
    ensures r.Err? <==> Downloads.ArtifactOf(lib).Some? && Downloads.ArtifactOf(lib).value.path.None?
    ensures r.Ok? && r.value.Some? ==> LibrariesDir(root) + "/" <= r.value.value
  {
    if lib.downloads.None? || lib.downloads.value.artifact.None? then Ok(None)
    else
      var artifact := lib.downloads.value.artifact.value;
      if artifact.path.None? then Err(TypeError("Path / None"))
      else Ok(Some(Join(LibrariesDir(root), artifact.path.value)))
  }

  /** `GameLauncher.__init__`: the given `minecraft_dir`, or `~/.minecraft`
      when none is given (a `Path` is always truthy, so only `None` falls back). */
  function MinecraftDir(given: Option<Path>, home: Path): Path {
    if given.Some? then given.value else Join(home, ".minecraft")
  }

  /** The downloader always writes libraries under `~/.minecraft`, whatever
      directory the launcher was built with. A pathless artifact fails the
      same way in both; otherwise the launcher looks for a library exactly
      where the downloader put it iff its `minecraft_dir` is `~/.minecraft`,
      which holds for the default launcher. */
  lemma LibraryPathIsDownloadDest(given: Option<Path>, home: Path, lib: Library)
    requires Downloads.ArtifactOf(lib).Some?
    ensures var dl := Downloads.LibraryTask(Join(home, ".minecraft"), Downloads.ArtifactOf(lib).value);
            var at := LibraryPath(MinecraftDir(given, home), lib);
      (dl.Err? ==> at == Err(dl.error)) &&
      (dl.Ok? ==> (at == Ok(Some(dl.value.dest)) <==> MinecraftDir(given, home) == Join(home, ".minecraft")))
    ensures given.None? && Downloads.LibraryTask(Join(home, ".minecraft"), Downloads.ArtifactOf(lib).value).Ok? ==>
      LibraryPath(MinecraftDir(given, home), lib) ==
      Ok(Some(Downloads.LibraryTask(Join(home, ".minecraft"), Downloads.ArtifactOf(lib).value).value.dest))
  {
    var art := Downloads.ArtifactOf(lib).value;
    if art.path.Some? {
      LibrariesUnderOneRoot(MinecraftDir(given, home), Join(home, ".minecraft"), art.path.value);
    }
  }

  /** Two roots give the same library file only when they are the same root. */
  lemma LibrariesUnderOneRoot(r1: Path, r2: Path, p: string)
    ensures Join(LibrariesDir(r1), p) == Join(LibrariesDir(r2), p) <==> r1 == r2
  {
    var suffix := "/libraries/" + p;
    assert Join(LibrariesDir(r1), p) == r1 + suffix;
    assert Join(LibrariesDir(r2), p) == r2 + suffix;
    if r1 + suffix == r2 + suffix {
      assert r1 == (r1 + suffix)[..|r1|];
      assert r2 == (r2 + suffix)[..|r2|];
    }
  }

  // ================================================================ natives

  /** `os_dict.get(os, os)`. */
  function OsClassifier(os: string): string {
    if os == "windows" then "windows"
    else if os == "linux" then "linux"
    else if os == "darwin" then "macos"
    else os
  }

  /** `"-x86"` when `"64" in arch or arch in ("amd64", "x86_64")`. */
  function ArchSuffix(arch: string): string {
    if Contains(arch, "64") || arch == "amd64" || arch == "x86_64" then "-x86" else ""
  }

  /** The second test of the architecture guard adds nothing: both named
      machines contain "64". */
  lemma ArchSuffixMeaning(arch: string)
    ensures ArchSuffix(arch) == "-x86" <==> Contains(arch, "64")
    ensures ArchSuffix(arch) == "" <==> !Contains(arch, "64")
  {
    if arch == "amd64" {
      ContainsAt(arch, "64");
      assert OccursAt(arch, "64", 3);
    } else if arch == "x86_64" {
      ContainsAt(arch, "64");
      assert OccursAt(arch, "64", 4);
    }
  }

  /** The classifier key for the current platform. */
  function ClassifierKey(system: string, machine: string): string {
    OsClassifier(Lower(system)) + ArchSuffix(Lower(machine))
  }

  /** The classifier key is the OS name (darwin read as "macos") followed by
      `-x86` exactly when the lower-cased machine contains "64". */
  lemma ClassifierKeys(system: string, machine: string)
    ensures ClassifierKey(system, machine) ==
      OsClassifier(Lower(system)) + (if Contains(Lower(machine), "64") then "-x86" else "")
  {
    ArchSuffixMeaning(Lower(machine));
  }

  /** A Mac on Apple silicon reports machine `arm64`, which contains "64", so
      it asks for the `macos-x86` natives. */
  lemma AppleSiliconKey()
    ensures ClassifierKey("Darwin", "arm64") == "macos-x86"
  {
    ContainsAt("arm64", "64");
    assert OccursAt("arm64", "64", 3);
    SampleKey("Darwin", "arm64", "darwin", "arm64", "macos-x86");
  }

  /** One platform's key, from the lower-cased names. */
  lemma SampleKey(system: string, machine: string, sys: string, mach: string, key: string)
    requires |system| == |sys| && forall i :: 0 <= i < |system| ==> LowerChar(system[i]) == sys[i]
    requires |machine| == |mach| && forall i :: 0 <= i < |machine| ==> LowerChar(machine[i]) == mach[i]
    requires OsClassifier(sys) + ArchSuffix(mach) == key
    ensures ClassifierKey(system, machine) == key
  {
    LowerSample(system, sys);
    LowerSample(machine, mach);
  }

  /** `s.lower()` is `t` when they agree character by character. */
  lemma LowerSample(s: string, t: string)
    requires |s| == |t| && forall i :: 0 <= i < |s| ==> LowerChar(s[i]) == t[i]
    ensures Lower(s) == t
  {
  }

  /** `get_native_path`. Nothing unless natives, downloads and classifiers are
      all present and non-empty; a classifier entry found under the key is a
      raw JSON object, on which the attribute access `.path` raises. */
  function NativePath(root: Path, lib: Library, system: string, machine: string): (r: Result<Option<Path>, Error>)
    ensures r.Err? <==>
      lib.natives.Some? && lib.natives.value != map[] && lib.downloads.Some? &&
      lib.downloads.value.classifiers.Some? && ClassifierKey(system, machine) in lib.downloads.value.classifiers.value
    ensures r.Err? ==> r.error == AttributeError("path")
    ensures r.Ok? ==> r.value.None?
  {
    if lib.natives.None? || lib.natives.value == map[] || lib.downloads.None?
       || lib.downloads.value.classifiers.None? || lib.downloads.value.classifiers.value == map[]
    then Ok(None)
    else if ClassifierKey(system, machine) in lib.downloads.value.classifiers.value then Err(AttributeError("path"))
    else Ok(None)
  }

  // ================================================================ classpath

  /** The version jar `<root>/versions/<id>/<id>.jar`. */
  function VersionJar(root: Path, id: string): Path {
    Join(Join(VersionsDir(root), id), id + ".jar")
  }

  /** The resolved path of every library that has one, in library order. */
  function Resolved(root: Path, libs: seq<Library>): seq<Path>
    decreases |libs|
  {
    if libs == [] then []
    else
      var here := LibraryPath(root, libs[0]);
      (if here.Ok? && here.value.Some? then [here.value.value] else []) + Resolved(root, libs[1..])
  }

  /** The library part of the classpath: resolved paths that exist, in order;
      the first library whose path cannot be built raises. */
  function LibraryEntries(root: Path, libs: seq<Library>, exists_: Path -> bool): Result<seq<Path>, Error>
    decreases |libs|
  {
    if libs == [] then Ok([])
    else match LibraryPath(root, libs[0])
      case Err(e) => Err(e)
      case Ok(p) =>
        var here := if p.Some? && exists_(p.value) then [p.value] else [];
        match LibraryEntries(root, libs[1..], exists_)
        case Err(e) => Err(e)
        case Ok(rest) => Ok(here + rest)
  }

  /** The classpath entries: the version jar first when it exists, then the libraries. */
  function ClasspathEntries(root: Path, metadata: VersionMetadata, libs: seq<Library>, exists_: Path -> bool)
    : Result<seq<Path>, Error>
  {
    var jar := VersionJar(root, metadata.id);
    match LibraryEntries(root, libs, exists_)
    case Err(e) => Err(e)
    case Ok(ls) => Ok((if exists_(jar) then [jar] else []) + ls)
  }

  /** The library entries are the resolved paths that exist, in library order,
      and building them fails exactly when some library has an artifact without a path. */
  lemma {:induction false} LibraryEntriesSpec(root: Path, libs: seq<Library>, exists_: Path -> bool)
    ensures LibraryEntries(root, libs, exists_).Err? <==> exists k :: 0 <= k < |libs| && LibraryPath(root, libs[k]).Err?
    ensures LibraryEntries(root, libs, exists_).Ok? ==>
      var es := LibraryEntries(root, libs, exists_).value;
      Subsequence(es, Resolved(root, libs)) &&
      (forall k :: 0 <= k < |es| ==> exists_(es[k])) &&
      (forall p :: p in es <==> p in Resolved(root, libs) && exists_(p))
    decreases |libs|
  {
    if libs != [] {
      var rest := libs[1..];
      LibraryEntriesSpec(root, rest, exists_);
      assert forall k :: 0 <= k < |rest| ==> rest[k] == libs[k + 1];
      if LibraryEntries(root, libs, exists_).Err? && LibraryPath(root, libs[0]).Ok? {
        var k :| 0 <= k < |rest| && LibraryPath(root, rest[k]).Err?;
        assert LibraryPath(root, libs[k + 1]).Err?;
      }
      if LibraryEntries(root, libs, exists_).Ok? {
        var p := LibraryPath(root, libs[0]).value;
        var es := LibraryEntries(root, libs, exists_).value;
        var tail := LibraryEntries(root, rest, exists_).value;
        var res := Resolved(root, rest);
        if p.Some? {
          assert Resolved(root, libs) == [p.value] + res;
          if exists_(p.value) {
            assert es == [p.value] + tail;
            assert es[1..] == tail && Resolved(root, libs)[1..] == res;
          } else {
            assert es == tail;
            assert Resolved(root, libs)[1..] == res;
          }
        } else {
          assert es == tail && Resolved(root, libs) == res;
        }
        forall k | 0 <= k < |libs| ensures LibraryPath(root, libs[k]).Ok? {
          if k > 0 { assert libs[k] == rest[k - 1]; }
        }
      }
    }
  }

  /** An existing resolved path is on the classpath as often as the
      libraries resolve to it; a missing one never. */
  lemma {:induction false} LibraryEntriesCount(root: Path, libs: seq<Library>, exists_: Path -> bool)
    ensures LibraryEntries(root, libs, exists_).Ok? ==>
      forall p :: multiset(LibraryEntries(root, libs, exists_).value)[p] ==
                  (if exists_(p) then multiset(Resolved(root, libs))[p] else 0)
    decreases |libs|
  {
    if libs != [] {
      LibraryEntriesCount(root, libs[1..], exists_);
    }
  }

  /** `pre` in front of a list that was built, or the error that stopped it. */
  function Prefixed(pre: seq<Path>, r: Result<seq<Path>, Error>): Result<seq<Path>, Error> {
    match r
    case Err(e) => Err(e)
    case Ok(rest) => Ok(pre + rest)
  }

  lemma PrefixedAssoc(a: seq<Path>, b: seq<Path>, r: Result<seq<Path>, Error>)
    ensures Prefixed(a, Prefixed(b, r)) == Prefixed(a + b, r)
  {
    if r.Ok? {
      assert a + (b + r.value) == (a + b) + r.value;
    }
  }

  lemma PrefixedEmpty(r: Result<seq<Path>, Error>)
    ensures Prefixed([], r) == r
  {
    if r.Ok? {
      assert [] + r.value == r.value;
    }
  }

  /** `assemble_classpath`: the entries joined by `os.pathsep`. */
  method AssembleClasspath(root: Path, metadata: VersionMetadata, libs: seq<Library>, exists_: Path -> bool, pathsep: string)
    returns (r: Result<string, Error>)
    ensures ClasspathEntries(root, metadata, libs, exists_).Ok? ==>
      r == Ok(JoinWith(ClasspathEntries(root, metadata, libs, exists_).value, pathsep))
    ensures ClasspathEntries(root, metadata, libs, exists_).Err? ==>
      r == Err(ClasspathEntries(root, metadata, libs, exists_).error)
  {
    var jar := VersionJar(root, metadata.id);
    var jarPart: seq<Path> := if exists_(jar) then [jar] else [];
    var libPaths: seq<Path> := [];
    assert libs[0..] == libs;
    PrefixedEmpty(LibraryEntries(root, libs, exists_));
    for i := 0 to |libs|
      invariant LibraryEntries(root, libs, exists_) == Prefixed(libPaths, LibraryEntries(root, libs[i..], exists_))
    {
      assert libs[i..][0] == libs[i] && libs[i..][1..] == libs[i + 1..];
      var libPath := LibraryPath(root, libs[i]);
      if libPath.Err? {
        return Err(libPath.error);
      }
      var here := if libPath.value.Some? && exists_(libPath.value.value) then [libPath.value.value] else [];
      PrefixedAssoc(libPaths, here, LibraryEntries(root, libs[i + 1..], exists_));
      libPaths := libPaths + here;
    }
    assert libs[|libs|..] == [];
    assert libPaths + [] == libPaths;
    return Ok(JoinWith(jarPart + libPaths, pathsep));
  }

  /** Every classpath entry exists; the jar comes first when it exists; and
      each library whose path resolves and exists is on it. */
  lemma ClasspathSpec(root: Path, metadata: VersionMetadata, libs: seq<Library>, exists_: Path -> bool)
    requires ClasspathEntries(root, metadata, libs, exists_).Ok?
    ensures var es := ClasspathEntries(root, metadata, libs, exists_).value;
      (forall k :: 0 <= k < |es| ==> exists_(es[k])) &&
      (exists_(VersionJar(root, metadata.id)) ==> es[0] == VersionJar(root, metadata.id)) &&
      (forall p :: p in Resolved(root, libs) && exists_(p) ==> p in es)
  {
    LibraryEntriesSpec(root, libs, exists_);
  }

  /** The JVM splits the classpath back into its entries when none of them
      holds the separator character. */
  lemma ClasspathSplitsBack(root: Path, metadata: VersionMetadata, libs: seq<Library>, exists_: Path -> bool, sep: char)
    requires ClasspathEntries(root, metadata, libs, exists_).Ok?
    requires var es := ClasspathEntries(root, metadata, libs, exists_).value;
      |es| >= 1 && forall k :: 0 <= k < |es| ==> sep !in es[k]
    ensures Split(JoinWith(ClasspathEntries(root, metadata, libs, exists_).value, [sep]), sep)
            == ClasspathEntries(root, metadata, libs, exists_).value
  {
    JoinSplit(ClasspathEntries(root, metadata, libs, exists_).value, sep);
  }

  // ================================================================ arguments

  /** The authentication part: a non-empty access token selects the
      authenticated triple (a missing `name` raises), anything else the demo mode. */
  function AuthArgs(profile: map<string, string>): Result<seq<Arg>, Error> {
    if "access_token" in profile && profile["access_token"] != "" then
      if "name" in profile then
        Ok([Some("--accessToken"), Some(profile["access_token"]),
            Some("--uuid"), Some(if "id" in profile then profile["id"] else ""),
            Some("--username"), Some(profile["name"])])
      else Err(KeyError("name"))
    else Ok([Some("--uuid"), Some(""), Some("--demo")])
  }

  /** `--assetIndex`: "pre-1.6" when assets are absent or an empty string, the
      string itself, or the object's `id` (possibly `None`). */
  function AssetIndexId(metadata: VersionMetadata): Arg {
    match metadata.assets
    case None => Some("pre-1.6")
    case Some(AssetsId(s)) => Some(if s == "" then "pre-1.6" else s)
    case Some(AssetsObject(d)) => d.id
  }

  /** `metadata.type or "release"`. */
  function VersionType(metadata: VersionMetadata): string {
    if Truthy(metadata.versionType) then metadata.versionType.value else "release"
  }

  function VersionArgs(root: Path, metadata: VersionMetadata): seq<Arg> {
    [Some("--version"), Some(metadata.id),
     Some("--gameDir"), Some(root),
     Some("--assetsDir"), Some(AssetsDir(root)),
     Some("--assetIndex"), AssetIndexId(metadata),
     Some("--versionType"), Some(VersionType(metadata))]
  }

  /** `build_game_args`. */
  function GameArgs(root: Path, metadata: VersionMetadata, profile: map<string, string>): Result<seq<Arg>, Error> {
    match AuthArgs(profile)
    case Err(e) => Err(e)
    case Ok(a) => Ok(a + VersionArgs(root, metadata))
  }

  /** How the game's option parser reads an argument list: `--demo` is a bare
      switch and every other option takes the next element as its value. */
  function Options(args: seq<Arg>): seq<(Arg, Option<Arg>)>
    decreases |args|
  {
    if args == [] then []
    else if args[0] == Some("--demo") then [(args[0], None)] + Options(args[1..])
    else if |args| == 1 then [(args[0], None)]
    else [(args[0], Some(args[1]))] + Options(args[2..])
  }

  /** The value of the first occurrence of option `flag`. */
  function Lookup(opts: seq<(Arg, Option<Arg>)>, flag: string): Option<Arg>
    decreases |opts|
  {
    if opts == [] then None
    else if opts[0].0 == Some(flag) && opts[0].1.Some? then opts[0].1
    else Lookup(opts[1..], flag)
  }

  /** The bare switch `flag` is present. */
  predicate Switched(opts: seq<(Arg, Option<Arg>)>, flag: string) {
    (Some(flag), None) in opts
  }

  /** An online login is a non-empty access token. */
  predicate Online(profile: map<string, string>) {
    "access_token" in profile && profile["access_token"] != ""
  }

  lemma VersionOptions(root: Path, metadata: VersionMetadata)
    ensures Options(VersionArgs(root, metadata)) ==
      [(Some("--version"), Some(Some(metadata.id))),
       (Some("--gameDir"), Some(Some(root))),
       (Some("--assetsDir"), Some(Some(AssetsDir(root)))),
       (Some("--assetIndex"), Some(AssetIndexId(metadata))),
       (Some("--versionType"), Some(Some(VersionType(metadata))))]
  {
    var v := VersionArgs(root, metadata);
    assert v[8..][2..] == [];
    assert Options(v[8..]) == [(v[8], Some(v[9]))];
    assert v[6..][2..] == v[8..];
    assert Options(v[6..]) == [(v[6], Some(v[7]))] + Options(v[8..]);
    assert v[4..][2..] == v[6..];
    assert Options(v[4..]) == [(v[4], Some(v[5]))] + Options(v[6..]);
    assert v[2..][2..] == v[4..];
    assert Options(v[2..]) == [(v[2], Some(v[3]))] + Options(v[4..]);
    assert Options(v) == [(v[0], Some(v[1]))] + Options(v[2..]);
  }

  /** Option `o` is `flag` given with a value. */
  predicate Found(o: (Arg, Option<Arg>), flag: string) {
    o.0 == Some(flag) && o.1.Some?
  }

  /** A lookup answers with the first occurrence of the option. */
  lemma {:induction false} LookupAt(opts: seq<(Arg, Option<Arg>)>, flag: string, k: int)
    requires 0 <= k < |opts| && Found(opts[k], flag)
    requires forall j :: 0 <= j < k ==> !Found(opts[j], flag)
    ensures Lookup(opts, flag) == opts[k].1
    decreases k
  {
    if k > 0 {
      LookupAt(opts[1..], flag, k - 1);
    }
  }

  /** A lookup of an option that never occurs with a value finds nothing. */
  lemma {:induction false} LookupNone(opts: seq<(Arg, Option<Arg>)>, flag: string)
    requires forall j :: 0 <= j < |opts| ==> !Found(opts[j], flag)
    ensures Lookup(opts, flag) == None
    decreases |opts|
  {
    if opts != [] {
      LookupNone(opts[1..], flag);
    }
  }

  /** Options that never mention `flag` with a value do not change its lookup. */
  lemma {:induction false} LookupPast(pre: seq<(Arg, Option<Arg>)>, rest: seq<(Arg, Option<Arg>)>, flag: string)
    requires forall j :: 0 <= j < |pre| ==> !Found(pre[j], flag)
    ensures Lookup(pre + rest, flag) == Lookup(rest, flag)
    decreases |pre|
  {
    if pre != [] {
      assert (pre + rest)[1..] == pre[1..] + rest;
      LookupPast(pre[1..], rest, flag);
    } else {
      assert pre + rest == rest;
    }
  }

  /** What the game reads from the version block. */
  lemma VersionLookups(root: Path, metadata: VersionMetadata)
    ensures var vo := Options(VersionArgs(root, metadata));
      Lookup(vo, "--version") == Some(Some(metadata.id)) &&
      Lookup(vo, "--gameDir") == Some(Some(root)) &&
      Lookup(vo, "--assetIndex") == Some(AssetIndexId(metadata)) &&
      Lookup(vo, "--versionType") == Some(Some(VersionType(metadata))) &&
      (forall k :: 0 <= k < |vo| ==> vo[k].1.Some?)
  {
    VersionOptions(root, metadata);
    var vo := Options(VersionArgs(root, metadata));
    LookupAt(vo, "--version", 0);
    LookupAt(vo, "--gameDir", 1);
    LookupAt(vo, "--assetIndex", 3);
    LookupAt(vo, "--versionType", 4);
  }

  /** The version block names no account. */
  lemma VersionBlockNoAccount(root: Path, metadata: VersionMetadata)
    ensures var vo := Options(VersionArgs(root, metadata));
      Lookup(vo, "--username") == None && Lookup(vo, "--accessToken") == None
  {
    VersionOptions(root, metadata);
    LookupNone(Options(VersionArgs(root, metadata)), "--username");
    LookupNone(Options(VersionArgs(root, metadata)), "--accessToken");
  }

  /** The options of an online login: three account options, then the version block. */
  lemma OnlineOptions(root: Path, metadata: VersionMetadata, profile: map<string, string>)
    requires Online(profile) && "name" in profile
    ensures GameArgs(root, metadata, profile).Ok?
    ensures Options(GameArgs(root, metadata, profile).value) ==
      [(Some("--accessToken"), Some(Some(profile["access_token"]))),
       (Some("--uuid"), Some(Some(if "id" in profile then profile["id"] else ""))),
       (Some("--username"), Some(Some(profile["name"])))] + Options(VersionArgs(root, metadata))
  {
    var a := AuthArgs(profile).value;
    var g := a + VersionArgs(root, metadata);
    assert g[2..][2..][2..] == VersionArgs(root, metadata);
    assert Options(g[2..]) == [(a[2], Some(a[3]))] + Options(g[2..][2..]);
  }

  /** What the game reads from the arguments of an online login: the
      account, then the version block; no demo switch. */
  lemma GameArgsOnline(root: Path, metadata: VersionMetadata, profile: map<string, string>)
    requires Online(profile) && "name" in profile
    ensures GameArgs(root, metadata, profile).Ok?
    ensures var opts := Options(GameArgs(root, metadata, profile).value);
      Lookup(opts, "--accessToken") == Some(Some(profile["access_token"])) &&
      Lookup(opts, "--uuid") == Some(Some(if "id" in profile then profile["id"] else "")) &&
      Lookup(opts, "--username") == Some(Some(profile["name"])) &&
      Lookup(opts, "--version") == Some(Some(metadata.id)) &&
      Lookup(opts, "--gameDir") == Some(Some(root)) &&
      Lookup(opts, "--assetIndex") == Some(AssetIndexId(metadata)) &&
      Lookup(opts, "--versionType") == Some(Some(VersionType(metadata))) &&
      !Switched(opts, "--demo")
  {
    OnlineOptions(root, metadata, profile);
    OnlineVersionLookups(root, metadata, profile);
    var opts := Options(GameArgs(root, metadata, profile).value);
    LookupAt(opts, "--accessToken", 0);
    LookupAt(opts, "--uuid", 1);
    LookupAt(opts, "--username", 2);
  }

  /** Behind the account options of an online login, the version block reads as on its own. */
  lemma OnlineVersionLookups(root: Path, metadata: VersionMetadata, profile: map<string, string>)
    requires Online(profile) && "name" in profile
    ensures GameArgs(root, metadata, profile).Ok?
    ensures var opts := Options(GameArgs(root, metadata, profile).value);
      Lookup(opts, "--version") == Some(Some(metadata.id)) &&
      Lookup(opts, "--gameDir") == Some(Some(root)) &&
      Lookup(opts, "--assetIndex") == Some(AssetIndexId(metadata)) &&
      Lookup(opts, "--versionType") == Some(Some(VersionType(metadata))) &&
      (forall k :: 0 <= k < |opts| ==> opts[k].1.Some?)
  {
    OnlineOptions(root, metadata, profile);
    VersionLookups(root, metadata);
    var opts := Options(GameArgs(root, metadata, profile).value);
    var pre, vo := opts[..3], Options(VersionArgs(root, metadata));
    assert opts == pre + vo;
    LookupPast(pre, vo, "--version");
    LookupPast(pre, vo, "--gameDir");
    LookupPast(pre, vo, "--assetIndex");
    LookupPast(pre, vo, "--versionType");
  }

  /** The options of any other profile: an empty uuid, the demo switch, then the version block. */
  lemma OfflineOptions(root: Path, metadata: VersionMetadata, profile: map<string, string>)
    requires !Online(profile)
    ensures GameArgs(root, metadata, profile).Ok?
    ensures Options(GameArgs(root, metadata, profile).value) ==
      [(Some("--uuid"), Some(Some(""))), (Some("--demo"), None)] + Options(VersionArgs(root, metadata))
  {
    var a := AuthArgs(profile).value;
    var g := a + VersionArgs(root, metadata);
    assert g[2..][1..] == VersionArgs(root, metadata);
  }

  /** What the game reads from the arguments of any other profile: an empty
      uuid, the demo switch, the version block, and no account. */
  lemma GameArgsOffline(root: Path, metadata: VersionMetadata, profile: map<string, string>)
    requires !Online(profile)
    ensures GameArgs(root, metadata, profile).Ok?
    ensures var opts := Options(GameArgs(root, metadata, profile).value);
      Lookup(opts, "--uuid") == Some(Some("")) &&
      Switched(opts, "--demo") &&
      Lookup(opts, "--version") == Some(Some(metadata.id)) &&
      Lookup(opts, "--gameDir") == Some(Some(root)) &&
      Lookup(opts, "--assetIndex") == Some(AssetIndexId(metadata)) &&
      Lookup(opts, "--versionType") == Some(Some(VersionType(metadata))) &&
      Lookup(opts, "--username") == None && Lookup(opts, "--accessToken") == None
  {
    OfflineOptions(root, metadata, profile);
    VersionLookups(root, metadata);
    var opts := Options(GameArgs(root, metadata, profile).value);
    var pre, vo := opts[..2], Options(VersionArgs(root, metadata));
    assert opts == pre + vo;
    LookupAt(opts, "--uuid", 0);
    LookupPast(pre, vo, "--version");
    LookupPast(pre, vo, "--gameDir");
    LookupPast(pre, vo, "--assetIndex");
    LookupPast(pre, vo, "--versionType");
    VersionBlockNoAccount(root, metadata);
    LookupPast(pre, vo, "--username");
    LookupPast(pre, vo, "--accessToken");
    assert opts[1] == (Some("--demo"), None);
  }

  /** The eight fixed heap and collector flags. */
  const JvmFlags: seq<Arg> :=
    [Some("-Xmx4G"), Some("-Xms2G"), Some("-XX:+UseG1GC"), Some("-XX:+UnlockExperimentalVMOptions"),
     Some("-XX:G1NewSizePercent=20"), Some("-XX:G1ReservePercent=20"), Some("-XX:MaxGCPauseMillis=50"),
     Some("-XX:G1HeapRegionSize=32M")]

  /** The six module-opening arguments `prepare_launch` puts in front. */
  const ModuleOpens: seq<Arg> :=
    [Some("--add-exports"), Some("jdk.naming.dns/com.sun.jndi.dns=java.naming"),
     Some("--add-opens"), Some("java.base/java.util.jar=cpw.mods.securejarhandler"),
     Some("--add-opens"), Some("java.base/java.lang.invoke=cpw.mods.securejarhandler")]

  /** `build_jvm_args`: the Java executable, the fixed flags, then the game arguments. */
  function JvmArgs(root: Path, metadata: VersionMetadata, profile: map<string, string>, javaPath: string)
    : (r: Result<seq<Arg>, Error>)
    ensures r.Ok? <==> GameArgs(root, metadata, profile).Ok?
    ensures r.Ok? ==>
      |r.value| == 9 + |GameArgs(root, metadata, profile).value| &&
      r.value[0] == Some(javaPath) && r.value[1..9] == JvmFlags &&
      r.value[9..] == GameArgs(root, metadata, profile).value
  {
    match GameArgs(root, metadata, profile)
    case Err(e) => Err(e)
    case Ok(g) => Ok([Some(javaPath)] + JvmFlags + g)
  }

  /** The command `prepare_launch` builds from the Java path, the classpath,
      the main class and the game arguments `g`: module openings, the JVM
      arguments (which already end in `g`), `-cp` and the classpath, the main
      class, and `g` a second time. */
  function CommandAsWritten(javaPath: string, cp: string, mainClass: Arg, g: seq<Arg>): seq<Arg> {
    ModuleOpens + ([Some(javaPath)] + JvmFlags + g) + [Some("-cp"), Some(cp)] + [mainClass] + g
  }

  /** The command as written is no JVM invocation: its program slot holds
      "--add-exports" while the Java executable sits at index 6, and the game
      arguments stand among the JVM options, before `-cp`, as well as after the main class. */
  lemma CommandAsWrittenMisplaced(javaPath: string, cp: string, mainClass: Arg, g: seq<Arg>)
    ensures var cmd := CommandAsWritten(javaPath, cp, mainClass, g);
      |cmd| == 18 + 2 * |g| &&
      cmd[0] == Some("--add-exports") && cmd[6] == Some(javaPath) &&
      cmd[15..15 + |g|] == g && cmd[15 + |g|] == Some("-cp") && cmd[17 + |g|] == mainClass &&
      cmd[18 + |g|..] == g
  {
    var o, f := ModuleOpens, JvmFlags;
    var cmd := CommandAsWritten(javaPath, cp, mainClass, g);
    assert cmd == o + [Some(javaPath)] + f + g + [Some("-cp"), Some(cp), mainClass] + g;
    assert cmd[0] == o[0];
    assert cmd[15..][..|g|] == g;
  }

  /** The launch data: the command list and the working directory (the
      environment copy is not modelled). */
  datatype LaunchData = LaunchData(command: seq<Arg>, cwd: Path)

  /** `prepare_launch` as written. */
  method PrepareLaunch(root: Path, metadata: VersionMetadata, libs: seq<Library>, profile: map<string, string>,
                       javaPath: string, exists_: Path -> bool, pathsep: string)
    returns (r: Result<LaunchData, Error>)
    ensures ClasspathEntries(root, metadata, libs, exists_).Err? ==> r == Err(ClasspathEntries(root, metadata, libs, exists_).error)
    ensures ClasspathEntries(root, metadata, libs, exists_).Ok? ==>
      match GameArgs(root, metadata, profile)
      case Err(e) => r == Err(e)
      case Ok(g) =>
        r == Ok(LaunchData(CommandAsWritten(javaPath, JoinWith(ClasspathEntries(root, metadata, libs, exists_).value, pathsep),
                                            metadata.mainClass, g), root))
  {
    var classpath := AssembleClasspath(root, metadata, libs, exists_, pathsep);
    if classpath.Err? {
      return Err(classpath.error);
    }
    var jvm := JvmArgs(root, metadata, profile, javaPath);
    if jvm.Err? {
      return Err(jvm.error);
    }
    var command := ModuleOpens + jvm.value;
    command := command + [Some("-cp"), Some(classpath.value)];
    command := command + [metadata.mainClass];
    var game := GameArgs(root, metadata, profile);
    command := command + game.value;
    return Ok(LaunchData(command, root));
  }

  /** The evidently intended command: the Java executable, the module
      openings, the fixed flags, `-cp` and the classpath, the main class, and
      the game arguments once. */
  function LaunchCommand(javaPath: string, cp: string, mainClass: Arg, g: seq<Arg>): (cmd: seq<Arg>)
    ensures |cmd| == 18 + |g|
    ensures cmd[0] == Some(javaPath)
    ensures cmd[15] == Some("-cp") && cmd[16] == Some(cp) && cmd[17] == mainClass
    ensures cmd[18..] == g
  {
    [Some(javaPath)] + ModuleOpens + JvmFlags + [Some("-cp"), Some(cp), mainClass] + g
  }

  lemma MultisetRearrange<T>(o: seq<T>, j: seq<T>, f: seq<T>, g: seq<T>, c: seq<T>, m: seq<T>, t: seq<T>)
    requires multiset(t) == multiset(c + m)
    ensures multiset(o + (j + f + g) + c + m + g) == multiset(j + o + f + t + g) + multiset(g)
  {
    calc {
      multiset(o + (j + f + g) + c + m + g);
      multiset(o) + multiset(j) + multiset(f) + multiset(g) + multiset(c) + multiset(m) + multiset(g);
      multiset(j + o + f + t + g) + multiset(g);
    }
  }

  lemma LaunchCommandRearranges(javaPath: string, cp: string, mainClass: Arg, g: seq<Arg>)
    ensures multiset(CommandAsWritten(javaPath, cp, mainClass, g))
            == multiset(LaunchCommand(javaPath, cp, mainClass, g)) + multiset(g)
  {
    MultisetRearrange(ModuleOpens, [Some(javaPath)], JvmFlags, g,
                      [Some("-cp"), Some(cp)], [mainClass], [Some("-cp"), Some(cp), mainClass]);
  }

  /** `prepare_launch` with the command laid out as intended. */
  method PrepareLaunchCorrected(root: Path, metadata: VersionMetadata, libs: seq<Library>, profile: map<string, string>,
                                javaPath: string, exists_: Path -> bool, pathsep: string)
    returns (r: Result<LaunchData, Error>)
    ensures ClasspathEntries(root, metadata, libs, exists_).Err? ==> r == Err(ClasspathEntries(root, metadata, libs, exists_).error)
    ensures ClasspathEntries(root, metadata, libs, exists_).Ok? ==>
      match GameArgs(root, metadata, profile)
      case Err(e) => r == Err(e)
      case Ok(g) =>
        r == Ok(LaunchData(LaunchCommand(javaPath, JoinWith(ClasspathEntries(root, metadata, libs, exists_).value, pathsep),
                                         metadata.mainClass, g), root))
  {
    var classpath := AssembleClasspath(root, metadata, libs, exists_, pathsep);
    if classpath.Err? {
      return Err(classpath.error);
    }
    var game := GameArgs(root, metadata, profile);
    if game.Err? {
      return Err(game.error);
    }
    return Ok(LaunchData(LaunchCommand(javaPath, classpath.value, metadata.mainClass, game.value), root));
  }
}
