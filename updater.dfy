/** Update decisions of `src/updater/auto_updater.py`. The release document
    and the download status are inputs; of `install_update`, the model keeps
    which files it copies and writes and what it answers, not their contents
    or the restart script's run. */
module Updater {
  import opened Common

  /** One downloadable file of a release. */
  datatype ReleaseAsset = ReleaseAsset(name: string, downloadUrl: string)

  /** The latest-release document: its tag and its assets. */
  datatype Release = Release(tagName: string, assets: seq<ReleaseAsset>)

  /** `get_current_version`: the package's `__version__` when it can be
      imported, "0.1.0" otherwise. */
  function CurrentVersion(declared: Option<string>): (v: string)
    ensures declared.None? ==> v == "0.1.0"
    ensures declared.Some? ==> v == declared.value
  {
    declared.GetOr("0.1.0")
  }

  /** `should_update`: the tag without its leading "v"s is greater than the
      current version in string order. */
  predicate ShouldUpdate(current: string, tag: string) {
    StrLess(current, LStrip(tag, 'v'))
  }

  /** The comparison is not numeric: 0.10.0 counts as older than 0.9.0. */
  lemma ShouldUpdateIsTextual()
    ensures !ShouldUpdate("0.9.0", "v0.10.0")
    ensures ShouldUpdate("0.10.0", "v0.9.0")
  {
    assert LStrip("v0.10.0", 'v') == "0.10.0";
    assert LStrip("v0.9.0", 'v') == "0.9.0";
    assert StrLess("0.9.0", "0.10.0") == StrLess(".9.0", ".10.0") == StrLess("9.0", "10.0");
    assert StrLess("0.10.0", "0.9.0") == StrLess(".10.0", ".9.0") == StrLess("10.0", "9.0");
  }

  /** Stripping a leading "v" from a version that does not start with one
      gives the version back. */
  lemma StripTagged(current: string)
    requires current == [] || current[0] != 'v'
    ensures LStrip(current, 'v') == current
    ensures LStrip("v" + current, 'v') == current
  {
    assert ("v" + current)[0] == 'v';
    assert ("v" + current)[1..] == current;
  }

  /** A release tagged with the current version, with or without a "v" in
      front, is no update. */
  lemma SameVersionNoUpdate(current: string)
    requires current == [] || current[0] != 'v'
    ensures !ShouldUpdate(current, current)
    ensures !ShouldUpdate(current, "v" + current)
  {
    StripTagged(current);
    StrLessIrreflexive(current);
  }

  /** Once a newer tag is installed, the old version's tag does not ask for an update back. */
  lemma UpdateNeverBack(current: string, tag: string)
    requires current == [] || current[0] != 'v'
    requires ShouldUpdate(current, tag)
    ensures !ShouldUpdate(LStrip(tag, 'v'), "v" + current)
  {
    StripTagged(current);
    var latest := LStrip(tag, 'v');
    if StrLess(latest, current) {
      StrLessTransitive(current, latest, current);
      StrLessIrreflexive(current);
    }
  }

  /** The platform suffix of the downloaded file's name. */
  function PlatformSuffix(system: string): string {
    if system == "Windows" then "-windows"
    else if system == "Linux" then "-linux"
    else if system == "Darwin" then "-macos"
    else ""
  }

  /** `launcher{suffix}.exe`. */
  function UpdateFileName(system: string): string {
    "launcher" + PlatformSuffix(system) + ".exe"
  }

  /** The three named platforms download to three different files, and every
      other platform to `launcher.exe`. */
  lemma UpdateFileNames(s1: string, s2: string)
    ensures s1 in {"Windows", "Linux", "Darwin"} && s2 in {"Windows", "Linux", "Darwin"} && s1 != s2 ==>
      UpdateFileName(s1) != UpdateFileName(s2)
    ensures s1 !in {"Windows", "Linux", "Darwin"} ==> UpdateFileName(s1) == "launcher.exe"
  {
    if s1 in {"Windows", "Linux", "Darwin"} && s2 in {"Windows", "Linux", "Darwin"} && s1 != s2 {
      assert UpdateFileName(s1)[9] != UpdateFileName(s2)[9];
    }
  }

  /** `download_update`: nothing on a non-200 reply, otherwise the file
      written under the update directory. */
  function DownloadUpdate(status: int, updateDir: Path, system: string): (r: Option<Path>)
    ensures r.Some? <==> status == 200
  {
    if status != 200 then None else Some(Join(updateDir, UpdateFileName(system)))
  }

  /** The asset test of `check_and_update`'s loop. */
  function ForPlatform(system: string): ReleaseAsset -> bool {
    (a: ReleaseAsset) => (Contains(Lower(a.name), "windows") && system == "Windows")
      || (Contains(Lower(a.name), "linux") && system == "Linux")
  }

  /** The asset URL `check_and_update` settles on: the first asset meant for
      this platform; when there is none or its URL is empty, the first asset's
      URL; nothing for a release without assets. */
  function ChosenUrl(assets: seq<ReleaseAsset>, system: string): Option<string> {
    var m := FirstWhere(assets, ForPlatform(system));
    if m.Some? && m.value.downloadUrl != "" then Some(m.value.downloadUrl)
    else if assets != [] then Some(assets[0].downloadUrl)
    else None
  }

  /** The asset loop of `check_and_update`, with its `break`. */
  method ChooseAsset(assets: seq<ReleaseAsset>, system: string) returns (url: Option<string>)
    ensures url == ChosenUrl(assets, system)
  {
    url := None;
    ghost var p := ForPlatform(system);
    var i := 0;
    while i < |assets|
      invariant 0 <= i <= |assets|
      invariant url.None?
      invariant FirstWhere(assets, p) == FirstWhere(assets[i..], p)
      decreases |assets| - i
    {
      assert assets[i..][1..] == assets[i + 1..];
      var name := Lower(assets[i].name);
      if Contains(name, "windows") && system == "Windows" {
        url := Some(assets[i].downloadUrl);
        break;
      } else if Contains(name, "linux") && system == "Linux" {
        url := Some(assets[i].downloadUrl);
        break;
      }
      i := i + 1;
    }
    if url.None? || url.value == "" {
      url := if |assets| > 0 then Some(assets[0].downloadUrl) else None;
    }
  }

  /** Outside Windows and Linux no asset matches, so the first one is taken;
      on every platform a chosen URL is one of the release's asset URLs. */
  lemma ChosenUrlSpec(assets: seq<ReleaseAsset>, system: string)
    ensures system != "Windows" && system != "Linux" && assets != [] ==>
      ChosenUrl(assets, system) == Some(assets[0].downloadUrl)
    ensures ChosenUrl(assets, system).Some? ==>
      exists k :: (0 <= k < |assets| && assets[k].downloadUrl == ChosenUrl(assets, system).value)
    ensures ChosenUrl(assets, system).None? <==> assets == []
  {
    FirstWhereSpec(assets, ForPlatform(system));
    if assets != [] {
      assert assets[0].downloadUrl == assets[0].downloadUrl;
    }
  }

  /** What `check_and_update` ends in. */
  datatype UpdateOutcome =
    | NoUpdate                          // no release, nothing newer, or no asset URL
    | DownloadFailed(url: string)       // the asset reply was not 200
    | Installed(url: string, file: Path)  // downloaded and handed to the installer

  /** `check_and_update`'s decision; what it then answers is `CheckAnswerAsWritten`. */
  method CheckAndUpdate(release: Option<Release>, declared: Option<string>, system: string,
                        status: string -> int, updateDir: Path)
    returns (r: UpdateOutcome)
    ensures release.None? || !ShouldUpdate(CurrentVersion(declared), release.value.tagName) ==> r == NoUpdate
    ensures release.Some? && ShouldUpdate(CurrentVersion(declared), release.value.tagName) ==>
      var url := ChosenUrl(release.value.assets, system);
      if !Truthy(url) then r == NoUpdate
      else match DownloadUpdate(status(url.value), updateDir, system)
        case None => r == DownloadFailed(url.value)
        case Some(f) => r == Installed(url.value, f)
  {
    if release.None? || !ShouldUpdate(CurrentVersion(declared), release.value.tagName) {
      return NoUpdate;
    }
    var url := ChooseAsset(release.value.assets, system);
    if url.None? || url.value == "" {
      return NoUpdate;
    }
    var updatePath := DownloadUpdate(status(url.value), updateDir, system);
    if updatePath.Some? {
      return Installed(url.value, updatePath.value);
    }
    return DownloadFailed(url.value);
  }

  /** An installed update came from a newer tag, from one of the release's
      assets, and was written to the platform's file name. */
  lemma InstalledMeansNewer(release: Option<Release>, declared: Option<string>, system: string,
                            status: string -> int, updateDir: Path, file: Path)
    requires release.Some? && ShouldUpdate(CurrentVersion(declared), release.value.tagName)
    requires Truthy(ChosenUrl(release.value.assets, system))
    requires DownloadUpdate(status(ChosenUrl(release.value.assets, system).value), updateDir, system) == Some(file)
    ensures file == Join(updateDir, UpdateFileName(system))
    ensures exists k :: (0 <= k < |release.value.assets| &&
      release.value.assets[k].downloadUrl == ChosenUrl(release.value.assets, system).value)
  {
    ChosenUrlSpec(release.value.assets, system);
  }

  // ---------------------------------------------------------------- installing

  /** `install_update` as written: its first step awaits `aiofiles.copy`,
      which the aiofiles package does not provide, so it raises before
      anything is copied or written. */
  function InstallUpdateAsWritten(update: Path): Result<bool, Error> {
    Err(AttributeError("copy"))
  }

  /** What `check_and_update` answers as written: `False` when there is
      nothing to install, and whatever the installer does otherwise. */
  function CheckAnswerAsWritten(o: UpdateOutcome): Result<bool, Error> {
    match o
    case Installed(_, file) => InstallUpdateAsWritten(file)
    case _ => Ok(false)
  }

  /** As written, the updater never reports an installed update: every
      successful download ends in `AttributeError`. */
  lemma UpdateNeverReportedAsWritten(o: UpdateOutcome)
    ensures CheckAnswerAsWritten(o) != Ok(true)
    ensures CheckAnswerAsWritten(o).Err? <==> o.Installed?
    ensures o.Installed? ==> CheckAnswerAsWritten(o) == Err(AttributeError("copy"))
  {
  }

  /** The files the intended `install_update` touches: the download is
      copied to `launcher_updated.exe` next to the running launcher, and a
      script in the update directory moves it over `launcher.exe`. */
  datatype InstallPlan = InstallPlan(copyFrom: Path, target: Path, script: Path, overwrites: Path)

  /** `install_update` with a copy that exists (`shutil.copy` or an
      `aiofiles` read and write): it answers `True`. */
  function InstallUpdate(update: Path, currentDir: Path, updateDir: Path): (r: (InstallPlan, bool))
    ensures r.0.copyFrom == update && r.0.target != r.0.overwrites
    ensures r.0.target == Join(currentDir, "launcher_updated.exe") && r.0.overwrites == Join(currentDir, "launcher.exe")
    ensures r.0.script == Join(updateDir, "update.bat")
    ensures r.1
  {
    var target := Join(currentDir, "launcher_updated.exe");
    var overwrites := Join(currentDir, "launcher.exe");
    assert target[|currentDir| + 9] != overwrites[|currentDir| + 9];
    (InstallPlan(update, target, Join(updateDir, "update.bat"), overwrites), true)
  }

  /** What `check_and_update` answers with the intended installer. */
  function CheckAnswer(o: UpdateOutcome, currentDir: Path, updateDir: Path): Result<bool, Error> {
    match o
    case Installed(_, file) => Ok(InstallUpdate(file, currentDir, updateDir).1)
    case _ => Ok(false)
  }

  /** With the intended installer, `check_and_update` never raises and answers
      `True` exactly when an update was downloaded and installed. */
  lemma CorrectedUpdateReportsInstall(o: UpdateOutcome, currentDir: Path, updateDir: Path)
    ensures CheckAnswer(o, currentDir, updateDir).Ok?
    ensures CheckAnswer(o, currentDir, updateDir) == Ok(true) <==> o.Installed?
  {
  }
}
