/** Java runtime selection of `src/runtime/java_manager.py`. The file system
    is a value of `FileSystem` (existence, directory test, directory
    listing), `java -version` is a probe returning its exit code and standard
    error (or nothing when the process cannot be started), and the platform
    strings are parameters. */
module JavaRuntime {
  import opened Common

  /** What the scans see of the file system. */
  datatype FileSystem = FileSystem(
    exists_: Path -> bool,
    isDir: Path -> bool,
    listing: Path -> seq<string>)

  /** Exit code and standard error of `<java> -version`; `None` when the
      process could not be started. */
  type Probe = Path -> Option<(int, string)>

  // ================================================================ Adoptium URL

  /** `os_map.get(system, system)`. */
  function OsId(system: string): string {
    var s := Lower(system);
    if s == "windows" then "windows" else if s == "linux" then "linux" else if s == "darwin" then "mac" else s
  }

  /** `arch_map.get(machine, machine)`. */
  function ArchId(machine: string): string {
    var m := Lower(machine);
    if m == "amd64" || m == "x86_64" then "x64"
    else if m == "i386" then "x86"
    else if m == "arm64" then "aarch64"
    else m
  }

  const AdoptiumPrefix: string := "https://api.adoptium.net/v3/binary/latest/17/ga"
  const AdoptiumSuffix: string := "jdk/hotspot/normal/adoptium"

  /** `get_adoptium_version_url`: the latest GA build of major version 17. */
  function AdoptiumUrl(system: string, machine: string): string {
    AdoptiumPrefix + "/" + OsId(system) + "/" + ArchId(machine) + "/" + AdoptiumSuffix
  }

  /** Splitting `os/arch/suf` at "/" gives `os`, `arch` and the splits of `suf`. */
  lemma SplitTwoSegments(os: string, arch: string, suf: string)
    requires '/' !in os && '/' !in arch
    ensures Split(os + ['/'] + (arch + ['/'] + suf), '/') == [os, arch] + Split(suf, '/')
  {
    SplitFirst(arch, suf, '/');
    SplitFirst(os, arch + ['/'] + suf, '/');
  }

  /** Splitting `pre/os/arch/suf` at "/" gives the splits of `pre`, `os`
      alone, `arch` alone and the splits of `suf`. */
  lemma SplitAround(pre: string, os: string, arch: string, suf: string)
    requires '/' !in os && '/' !in arch
    ensures Split(pre + "/" + os + "/" + arch + "/" + suf, '/') == Split(pre, '/') + [os, arch] + Split(suf, '/')
  {
    var t := os + ['/'] + (arch + ['/'] + suf);
    SplitTwoSegments(os, arch, suf);
    SplitConcat(pre, t, '/');
    assert pre + "/" + os + "/" + arch + "/" + suf == pre + ['/'] + t;
  }

  /** The URL determines the platform ids it was built from: two platforms
      share a download URL only when they map to the same OS and architecture
      ids (for ids without a "/"). */
  lemma AdoptiumUrlInjective(s1: string, m1: string, s2: string, m2: string)
    requires '/' !in OsId(s1) && '/' !in ArchId(m1) && '/' !in OsId(s2) && '/' !in ArchId(m2)
    requires AdoptiumUrl(s1, m1) == AdoptiumUrl(s2, m2)
    ensures OsId(s1) == OsId(s2) && ArchId(m1) == ArchId(m2)
  {
    SplitAround(AdoptiumPrefix, OsId(s1), ArchId(m1), AdoptiumSuffix);
    SplitAround(AdoptiumPrefix, OsId(s2), ArchId(m2), AdoptiumSuffix);
    var n := |Split(AdoptiumPrefix, '/')|;
    assert Split(AdoptiumUrl(s1, m1), '/')[n] == OsId(s1);
    assert Split(AdoptiumUrl(s2, m2), '/')[n] == OsId(s2);
    assert Split(AdoptiumUrl(s1, m1), '/')[n + 1] == ArchId(m1);
    assert Split(AdoptiumUrl(s2, m2), '/')[n + 1] == ArchId(m2);
  }

  // ================================================================ version probe

  /** `get_java_version`: on exit code 0, the first line of standard error;
      when it mentions "version", the text between its first two double
      quotes. A line with no quote raises `IndexError`, which the function
      swallows like every other failure. */
  function ParseJavaVersion(probe: Option<(int, string)>): Option<string> {
    if probe.None? || probe.value.0 != 0 then None
    else
      var line := FirstLineOf(probe.value.1);
      if !Contains(line, "version") then None else Quoted(line)
  }

  /** `text.split("\n")[0]`. */
  function FirstLineOf(text: string): string {
    Split(text, '\n')[0]
  }

  /** `line.split('"')[1]`, with the `IndexError` of a line without quotes swallowed. */
  function Quoted(line: string): Option<string> {
    var parts := Split(line, '"');
    if |parts| < 2 then None else Some(parts[1])
  }

  /** The first line of `line\nrest` is `line`. */
  lemma FirstLine(line: string, rest: string)
    requires '\n' !in line
    ensures FirstLineOf(line + ['\n'] + rest) == line
  {
    SplitFirst(line, rest, '\n');
  }

  /** The quoted part of `a"v"b` is `v`. */
  lemma SecondQuoted(a: string, v: string, b: string)
    requires '"' !in a && '"' !in v
    ensures Quoted(a + ['"'] + v + ['"'] + b) == Some(v)
  {
    SplitFirst(v, b, '"');
    SplitFirst(a, v + ['"'] + b, '"');
    assert a + ['"'] + v + ['"'] + b == a + ['"'] + (v + ['"'] + b);
  }

  /** A line that starts with a mention of "version" mentions it. */
  lemma BannerMentionsVersion(a: string, v: string, b: string)
    requires Contains(a, "version")
    ensures Contains(a + ['"'] + v + ['"'] + b, "version")
  {
    ContainsPrefix(a, ['"'] + v + ['"'] + b, "version");
    assert a + (['"'] + v + ['"'] + b) == a + ['"'] + v + ['"'] + b;
  }

  /** The usual banner `a"v"b` on the first line yields `v`, whatever
      further lines follow. */
  lemma ParseJavaVersionReads(a: string, v: string, b: string, rest: string)
    requires '"' !in a && '"' !in v
    requires '\n' !in a && '\n' !in v && '\n' !in b
    requires Contains(a, "version")
    ensures ParseJavaVersion(Some((0, a + ['"'] + v + ['"'] + b + ['\n'] + rest))) == Some(v)
  {
    var line := a + ['"'] + v + ['"'] + b;
    assert forall k :: 0 <= k < |line| ==> line[k] != '\n';
    FirstLine(line, rest);
    BannerMentionsVersion(a, v, b);
    SecondQuoted(a, v, b);
  }

  /** A run that fails or prints no version line gives nothing. */
  lemma ParseJavaVersionFails(code: int, err: string)
    requires code != 0 || !Contains(FirstLineOf(err), "version")
    ensures ParseJavaVersion(Some((code, err))) == None
  {
  }

  /** The quoted part of a line is there exactly when the line holds a quote,
      and it is the quote-free text after the first quote, up to the next
      quote or the end of the line. */
  lemma QuotedMeaning(line: string)
    ensures Quoted(line).Some? <==> '"' in line
    ensures Quoted(line).Some? ==> QuotedAt(line, Quoted(line).value, |Split(line, '"')[0]|)
  {
    SplitSeveral(line, '"');
    if '"' in line {
      var a := Split(line, '"')[0];
      SplitHead(line, '"');
      SplitPieces(line, '"');
      assert '"' !in a by { assert a == Split(line, '"')[0]; }
      var t := line[|a| + 1..];
      assert line == a + ['"'] + t;
      SplitFirst(a, t, '"');
      QuotedAfter(line, a, t);
    }
  }

  /** In `a"t` with no quote in `a`, the first piece of `t` sits after the quote at `|a|`. */
  lemma QuotedAfter(line: string, a: string, t: string)
    requires line == a + ['"'] + t && '"' !in a
    ensures QuotedAt(line, Split(t, '"')[0], |a|)
  {
    var v := Split(t, '"')[0];
    SplitHead(t, '"');
    SplitPieces(t, '"');
    assert line[..|a|] == a;
    assert line[|a| + 1..] == t;
    assert line[|a| + 1..|a| + 1 + |v|] == t[..|v|];
  }

  /** `v` sits between the quote at `i`, the line's first, and the next quote or the end. */
  predicate QuotedAt(line: string, v: string, i: int) {
    '"' !in v && 0 <= i < |line| && line[i] == '"' && '"' !in line[..i] && i + 1 + |v| <= |line| &&
    line[i + 1..i + 1 + |v|] == v && (i + 1 + |v| == |line| || line[i + 1 + |v|] == '"')
  }

  /** Every run: a version is reported exactly when the run succeeded and its
      first line mentions "version" and holds a double quote; the version is
      the quote-free text after the line's first quote, up to the next quote
      or the end of the line. */
  lemma ParseJavaVersionMeaning(probe: Option<(int, string)>)
    ensures ParseJavaVersion(probe).Some? <==>
      probe.Some? && probe.value.0 == 0 && Contains(FirstLineOf(probe.value.1), "version") &&
      '"' in FirstLineOf(probe.value.1)
    ensures ParseJavaVersion(probe).Some? ==>
      exists i :: QuotedAt(FirstLineOf(probe.value.1), ParseJavaVersion(probe).value, i)
  {
    if probe.Some? {
      QuotedMeaning(FirstLineOf(probe.value.1));
    }
  }

  /** `version and version.startswith("17")`. */
  predicate Acceptable(version: Option<string>) {
    version.Some? && "17" <= version.value
  }

  /** The version `get_java_version` reports for `p`. */
  function VersionOf(probe: Probe, p: Path): Option<string> {
    ParseJavaVersion(probe(p))
  }

  // ================================================================ system scan

  /** The four directories `get_system_java` scans, in order. */
  const CommonDirs: seq<Path> :=
    ["C:/Program Files/Java", "C:/Program Files (x86)/Java", "/usr/lib/jvm", "/Library/Java/JavaVirtualMachines"]

  /** `item / "bin" / "java(.exe)"`. */
  function JavaBin(item: Path, windows: bool): Path {
    Join(Join(item, "bin"), if windows then "java.exe" else "java")
  }

  /** The executables a base directory offers: one per subdirectory whose
      lower-cased name contains "java", in listing order. */
  function EntryCandidates(fs: FileSystem, base: Path, names: seq<string>, windows: bool): seq<Path>
    decreases |names|
  {
    if names == [] then []
    else
      var item := Join(base, names[0]);
      (if fs.isDir(item) && Contains(Lower(names[0]), "java") then [JavaBin(item, windows)] else [])
      + EntryCandidates(fs, base, names[1..], windows)
  }

  /** The executables of every existing base, in scan order. */
  function Candidates(fs: FileSystem, bases: seq<Path>, windows: bool): seq<Path>
    decreases |bases|
  {
    if bases == [] then []
    else
      (if fs.exists_(bases[0]) then EntryCandidates(fs, bases[0], fs.listing(bases[0]), windows) else [])
      + Candidates(fs, bases[1..], windows)
  }

  /** The directory part of a path: the text before its last "/", or "." when it has none. */
  function Parent(p: Path): Path
    decreases |p|
  {
    if p == [] then "."
    else if p[|p| - 1] == '/' then p[..|p| - 1]
    else Parent(p[..|p| - 1])
  }

  /** The parent of `dir/name` is `dir` when `name` is a plain name. */
  lemma {:induction false} ParentOfJoin(dir: Path, name: string)
    requires '/' !in name
    ensures Parent(Join(dir, name)) == dir
    decreases |name|
  {
    if name != [] {
      assert Join(dir, name)[..|Join(dir, name)| - 1] == Join(dir, name[..|name| - 1]);
      ParentOfJoin(dir, name[..|name| - 1]);
    } else {
      assert Join(dir, name)[..|Join(dir, name)| - 1] == dir;
    }
  }

  /** What `get_system_java` returns: the location `where java` reported (on
      Windows, `java.exe` beside it), otherwise the first scanned executable
      that exists. */
  function SystemJava(fs: FileSystem, windows: bool, located: Option<Path>): Option<Path> {
    if located.Some? then Some(if windows then Join(Parent(located.value), "java.exe") else located.value)
    else FirstWhere(Candidates(fs, CommonDirs, windows), fs.exists_)
  }

  /** The inner scan of one base directory. */
  method ScanBase(fs: FileSystem, base: Path, windows: bool) returns (r: Option<Path>)
    ensures r == FirstWhere(EntryCandidates(fs, base, fs.listing(base), windows), fs.exists_)
  {
    var names := fs.listing(base);
    assert names[0..] == names;
    for j := 0 to |names|
      invariant FirstWhere(EntryCandidates(fs, base, names, windows), fs.exists_)
             == FirstWhere(EntryCandidates(fs, base, names[j..], windows), fs.exists_)
    {
      assert names[j..][1..] == names[j + 1..];
      var item := Join(base, names[j]);
      ghost var rest := EntryCandidates(fs, base, names[j + 1..], windows);
      if fs.isDir(item) && Contains(Lower(names[j]), "java") {
        var bin := JavaBin(item, windows);
        assert EntryCandidates(fs, base, names[j..], windows) == [bin] + rest;
        if fs.exists_(bin) {
          return Some(bin);
        }
        assert ([bin] + rest)[1..] == rest;
      } else {
        assert EntryCandidates(fs, base, names[j..], windows) == rest;
      }
    }
    return None;
  }

  /** `get_system_java`. `located` is the first line `where java` printed when
      both `java -version` and `where java` succeeded, and nothing otherwise. */
  method GetSystemJava(fs: FileSystem, windows: bool, located: Option<Path>) returns (r: Option<Path>)
    ensures r == SystemJava(fs, windows, located)
  {
    if located.Some? {
      return Some(if windows then Join(Parent(located.value), "java.exe") else located.value);
    }
    var bases := CommonDirs;
    assert bases[0..] == bases;
    for i := 0 to |bases|
      invariant FirstWhere(Candidates(fs, bases, windows), fs.exists_)
             == FirstWhere(Candidates(fs, bases[i..], windows), fs.exists_)
    {
      assert bases[i..][1..] == bases[i + 1..];
      ghost var later := Candidates(fs, bases[i + 1..], windows);
      if fs.exists_(bases[i]) {
        var found := ScanBase(fs, bases[i], windows);
        FirstWhereAppend(EntryCandidates(fs, bases[i], fs.listing(bases[i]), windows), later, fs.exists_);
        if found.Some? {
          return found;
        }
      } else {
        assert Candidates(fs, bases[i..], windows) == later;
      }
    }
    return None;
  }

  /** On Windows the path `where java` reports is replaced by `java.exe` in the same directory. */
  lemma WindowsProbeSibling(fs: FileSystem, dir: Path, name: string)
    requires '/' !in name
    ensures SystemJava(fs, true, Some(Join(dir, name))) == Some(Join(dir, "java.exe"))
  {
    ParentOfJoin(dir, name);
  }

  /** The first existing candidate over any list of bases. */
  lemma ScanOverSpec(fs: FileSystem, bases: seq<Path>, windows: bool)
    ensures var c := Candidates(fs, bases, windows);
      (FirstWhere(c, fs.exists_).Some? ==> fs.exists_(FirstWhere(c, fs.exists_).value) && FirstWhere(c, fs.exists_).value in c) &&
      (FirstWhere(c, fs.exists_).None? <==> forall k :: 0 <= k < |c| ==> !fs.exists_(c[k]))
  {
    FirstWhereSpec(Candidates(fs, bases, windows), fs.exists_);
  }

  /** Without a `where` answer, the scan returns an existing executable of a
      java-named subdirectory of an existing base, and returns nothing only
      when no such executable exists. */
  lemma {:induction false} SystemScanSpec(fs: FileSystem, windows: bool)
    ensures SystemJava(fs, windows, None).Some? ==>
      var p := SystemJava(fs, windows, None).value;
      fs.exists_(p) && p in Candidates(fs, CommonDirs, windows)
    ensures SystemJava(fs, windows, None).None? <==>
      forall k :: 0 <= k < |Candidates(fs, CommonDirs, windows)| ==> !fs.exists_(Candidates(fs, CommonDirs, windows)[k])
  {
    ScanOverSpec(fs, CommonDirs, windows);
  }

  // ================================================================ download

  /** The executables an extracted archive offers: `bin/java(.exe)` of each
      top-level directory, in listing order. */
  function ExtractedBins(fs: FileSystem, dir: Path, names: seq<string>, windows: bool): seq<Path>
    decreases |names|
  {
    if names == [] then []
    else
      var item := Join(dir, names[0]);
      (if fs.isDir(item) then [JavaBin(item, windows)] else []) + ExtractedBins(fs, dir, names[1..], windows)
  }

  /** The extraction directory `<runtime>/java-17`. */
  function ExtractDir(runtimeDir: Path): Path {
    Join(runtimeDir, "java-17")
  }

  /** The result selection of `download_java`: nothing on a non-200 reply;
      otherwise, over the extracted tree `fs`, the first top-level directory's
      executable that exists. */
  method DownloadJava(status: int, fs: FileSystem, runtimeDir: Path, windows: bool) returns (r: Option<Path>)
    ensures status != 200 ==> r.None?
    ensures status == 200 ==>
      r == FirstWhere(ExtractedBins(fs, ExtractDir(runtimeDir), fs.listing(ExtractDir(runtimeDir)), windows), fs.exists_)
  {
    if status != 200 {
      return None;
    }
    var dir := ExtractDir(runtimeDir);
    var names := fs.listing(dir);
    assert names[0..] == names;
    for j := 0 to |names|
      invariant FirstWhere(ExtractedBins(fs, dir, names, windows), fs.exists_)
             == FirstWhere(ExtractedBins(fs, dir, names[j..], windows), fs.exists_)
    {
      assert names[j..][1..] == names[j + 1..];
      var item := Join(dir, names[j]);
      ghost var rest := ExtractedBins(fs, dir, names[j + 1..], windows);
      if fs.isDir(item) {
        var bin := JavaBin(item, windows);
        assert ExtractedBins(fs, dir, names[j..], windows) == [bin] + rest;
        if fs.exists_(bin) {
          return Some(bin);
        }
        assert ([bin] + rest)[1..] == rest;
      } else {
        assert ExtractedBins(fs, dir, names[j..], windows) == rest;
      }
    }
    return None;
  }

  /** A downloaded runtime is an existing executable found in the extracted tree. */
  lemma DownloadedJavaExists(fs: FileSystem, runtimeDir: Path, windows: bool)
    requires FirstWhere(ExtractedBins(fs, ExtractDir(runtimeDir), fs.listing(ExtractDir(runtimeDir)), windows), fs.exists_).Some?
    ensures var p := FirstWhere(ExtractedBins(fs, ExtractDir(runtimeDir), fs.listing(ExtractDir(runtimeDir)), windows), fs.exists_).value;
      fs.exists_(p) && p in ExtractedBins(fs, ExtractDir(runtimeDir), fs.listing(ExtractDir(runtimeDir)), windows)
  {
    FirstWhereSpec(ExtractedBins(fs, ExtractDir(runtimeDir), fs.listing(ExtractDir(runtimeDir)), windows), fs.exists_);
  }

  // ================================================================ ensure_java

  /** The text of the `Exception` raised when no stage yields a runtime. */
  const NoJavaMessage := "Could not find or download suitable Java runtime"

  /** The test `ensure_java` applies to each candidate. */
  function Qualifies(probe: Probe): Path -> bool {
    p => Acceptable(VersionOf(probe, p))
  }

  /** `ensure_java`'s answer: the system runtime if it reports a 17 version,
      else the first cached runtime that does, else whatever the download
      produced; a download yielding nothing raises `Exception` with
      `NoJavaMessage`. */
  function Ensured(system: Option<Path>, cached: seq<Path>, probe: Probe, download: Result<Option<Path>, Error>)
    : Result<Path, Error>
  {
    if system.Some? && Acceptable(VersionOf(probe, system.value)) then Ok(system.value)
    else match FirstWhere(cached, Qualifies(probe))
      case Some(p) => Ok(p)
      case None =>
        match download
        case Err(e) => Err(e)
        case Ok(Some(p)) => Ok(p)
        case Ok(None) => Err(RuntimeFailure(NoJavaMessage))
  }

  /** The three-stage fallback: a runtime that was not downloaded reports a
      17 version; a qualifying system runtime wins; otherwise the first
      qualifying cached runtime does; and the call fails exactly when no stage
      yields a runtime, with the download's own error or else `NoJavaMessage`. */
  lemma EnsuredSpec(system: Option<Path>, cached: seq<Path>, probe: Probe, download: Result<Option<Path>, Error>)
    ensures var r := Ensured(system, cached, probe, download);
      r.Ok? && download != Ok(Some(r.value)) ==> Acceptable(VersionOf(probe, r.value))
    ensures var r := Ensured(system, cached, probe, download);
      r.Err? <==>
        !(system.Some? && Acceptable(VersionOf(probe, system.value))) &&
        (forall k :: 0 <= k < |cached| ==> !Acceptable(VersionOf(probe, cached[k]))) &&
        (download.Err? || download == Ok(None))
    ensures var r := Ensured(system, cached, probe, download);
      r.Err? ==> r.error == (if download.Err? then download.error else RuntimeFailure(NoJavaMessage))
    ensures system.Some? && Acceptable(VersionOf(probe, system.value)) ==>
      Ensured(system, cached, probe, download) == Ok(system.value)
    ensures forall k :: 0 <= k < |cached| && Acceptable(VersionOf(probe, cached[k])) &&
                        (forall j :: 0 <= j < k ==> !Acceptable(VersionOf(probe, cached[j]))) &&
                        !(system.Some? && Acceptable(VersionOf(probe, system.value))) ==>
      Ensured(system, cached, probe, download) == Ok(cached[k])
  {
    FirstWhereSpec(cached, Qualifies(probe));
  }

  /** The loop of `ensure_java` over the cached runtimes: the first whose
      version starts with "17". */
  method FirstQualifying(javaPaths: seq<Path>, probe: Probe) returns (r: Option<Path>)
    ensures r == FirstWhere(javaPaths, Qualifies(probe))
  {
    ghost var ok := Qualifies(probe);
    assert javaPaths[0..] == javaPaths;
    for i := 0 to |javaPaths|
      invariant FirstWhere(javaPaths, ok) == FirstWhere(javaPaths[i..], ok)
    {
      assert javaPaths[i..][1..] == javaPaths[i + 1..];
      var version := VersionOf(probe, javaPaths[i]);
      if version.Some? && "17" <= version.value {
        return Some(javaPaths[i]);
      }
    }
    assert javaPaths[|javaPaths|..] == [];
    return None;
  }

  /** `ensure_java`. The cached runtimes are the recursive glob matches of
      `bin/java` followed by those of `bin/java.exe` under the runtime directory;
      `download` is what `download_java` produced or raised. */
  method EnsureJava(fs: FileSystem, windows: bool, located: Option<Path>, probe: Probe,
                    javaBins: seq<Path>, exeBins: seq<Path>, download: Result<Option<Path>, Error>)
    returns (r: Result<Path, Error>)
    ensures r == Ensured(SystemJava(fs, windows, located), javaBins + exeBins, probe, download)
  {
    var systemJava := GetSystemJava(fs, windows, located);
    if systemJava.Some? {
      var version := VersionOf(probe, systemJava.value);
      if version.Some? && "17" <= version.value {
        return Ok(systemJava.value);
      }
    }
    var cachedJava := FirstQualifying(javaBins + exeBins, probe);
    if cachedJava.Some? {
      return Ok(cachedJava.value);
    }
    match download {
      case Err(e) => return Err(e);
      case Ok(p) =>
        if p.Some? {
          return Ok(p.value);
        }
        return Err(RuntimeFailure(NoJavaMessage));
    }
  }
}
