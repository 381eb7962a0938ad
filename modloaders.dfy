/** Mod-loader installation of `src/modloaders/modloader_manager.py`. HTTP
    replies (status codes, the Fabric installer list), the base descriptor
    read from disk, the descriptor parser and the archive listing are inputs;
    the writes themselves are not modelled. */
module ModLoaders {
  import opened Common
  import opened Models
  import Downloads

  // ================================================================ installer downloads

  const ForgeMaven: string := "https://maven.minecraftforge.net/"

  /** The Forge installer URL for `v`. */
  function ForgeInstallerUrl(v: string): string {
    ForgeMaven + "net/minecraftforge/forge/" + v + "/forge-" + v + "-installer.jar"
  }

  /** Where the Forge installer for `v` is saved. */
  function ForgeInstallerDest(modloaderDir: Path, v: string): Path {
    Join(Join(modloaderDir, "forge"), v + "-installer.jar")
  }

  /** Different Forge versions are fetched from different URLs and saved to different files. */
  lemma ForgeTemplatesInjective(dir: Path, v1: string, v2: string)
    ensures ForgeInstallerUrl(v1) == ForgeInstallerUrl(v2) ==> v1 == v2
    ensures ForgeInstallerDest(dir, v1) == ForgeInstallerDest(dir, v2) ==> v1 == v2
  {
    var pre := ForgeMaven + "net/minecraftforge/forge/";
    if ForgeInstallerUrl(v1) == ForgeInstallerUrl(v2) {
      var u1, u2 := ForgeInstallerUrl(v1), ForgeInstallerUrl(v2);
      assert |u1| == |pre| + 2 * |v1| + 21 && |u2| == |pre| + 2 * |v2| + 21;
      assert u1[|pre|..|pre| + |v1|] == v1;
      assert u2[|pre|..|pre| + |v2|] == v2;
    }
    if ForgeInstallerDest(dir, v1) == ForgeInstallerDest(dir, v2) {
      var base := Join(Join(dir, "forge"), "");
      var d1, d2 := ForgeInstallerDest(dir, v1), ForgeInstallerDest(dir, v2);
      assert d1 == base + v1 + "-installer.jar" && d2 == base + v2 + "-installer.jar";
      assert d1[|base|..|d1| - 14] == v1;
      assert d2[|base|..|d2| - 14] == v2;
    }
  }

  /** One entry of the Fabric installer list. */
  datatype FabricInstaller = FabricInstaller(version: string, url: string)

  /** Where a Fabric installer version is saved. */
  function FabricInstallerDest(modloaderDir: Path, version: string): Path {
    Join(Join(modloaderDir, "fabric"), version + ".jar")
  }

  /** `download_forge_installer` as written: a 200 reply reaches
      `aiohttp.open`, an attribute the HTTP client does not have, so the
      installer is never saved; any other reply gives nothing. */
  function ForgeDownloadAsWritten(status: int, modloaderDir: Path, v: string): Result<Option<Path>, Error> {
    if status == 200 then Err(AttributeError("open")) else Ok(None)
  }

  /** `download_forge_installer` with the file opened for writing: a 200
      reply saves the installer at its destination. */
  function ForgeDownload(status: int, modloaderDir: Path, v: string): (r: Result<Option<Path>, Error>)
    ensures r.Ok?
    ensures r.value.Some? <==> status == 200
    ensures r.value.Some? ==> r.value.value == ForgeInstallerDest(modloaderDir, v)
  {
    if status == 200 then Ok(Some(ForgeInstallerDest(modloaderDir, v))) else Ok(None)
  }

  /** `download_fabric_installer` as written: the first listed installer is
      fetched, and a 200 reply raises at `aiohttp.open`. The requested Fabric
      version is not consulted. */
  function FabricDownloadAsWritten(installers: seq<FabricInstaller>, status: int, modloaderDir: Path)
    : Result<Option<Path>, Error>
  {
    if installers == [] then Ok(None)
    else if status == 200 then Err(AttributeError("open"))
    else Ok(None)
  }

  /** `download_fabric_installer` with the file opened for writing: the
      first listed installer is saved under its own version name. */
  function FabricDownload(installers: seq<FabricInstaller>, status: int, modloaderDir: Path)
    : (r: Result<Option<Path>, Error>)
    ensures r.Ok?
    ensures r.value.Some? <==> installers != [] && status == 200
    ensures r.value.Some? ==> r.value.value == FabricInstallerDest(modloaderDir, installers[0].version)
  {
    if installers == [] then Ok(None)
    else if status == 200 then Ok(Some(FabricInstallerDest(modloaderDir, installers[0].version)))
    else Ok(None)
  }

  /** As written, neither installer download can ever produce a file: each
      either yields nothing or raises. */
  lemma InstallerNeverSavedAsWritten(status: int, dir: Path, v: string, installers: seq<FabricInstaller>)
    ensures forall p :: ForgeDownloadAsWritten(status, dir, v) != Ok(Some(p))
    ensures forall p :: FabricDownloadAsWritten(installers, status, dir) != Ok(Some(p))
    ensures status == 200 ==> ForgeDownloadAsWritten(status, dir, v).Err?
  {
  }

  // ================================================================ descriptor rewrite

  /** The fixed replacement loader version passed in the game arguments. */
  const FmlVersion: string := "47.1.4"

  const LaunchWrapper: string := "net.minecraft.launchwrapper.Launch"

  /** The maven path of the library the rewrite appends, for lower-cased loader `t`. */
  function ForgeLibraryPath(mc: string, t: string): string {
    "net/minecraftforge/forge/" + t + "-" + mc + "/forge-" + t + "-" + mc + ".jar"
  }

  /** The library entry the rewrite appends. */
  function ForgeLibrary(mc: string, t: string): Json {
    JObj(map[
      "name" := JStr("net.minecraftforge:forge:" + t + "-" + mc),
      "downloads" := JObj(map[
        "artifact" := JObj(map[
          "path" := JStr(ForgeLibraryPath(mc, t)),
          "url" := JStr(ForgeMaven + ForgeLibraryPath(mc, t))])])])
  }

  /** The replacement `arguments` object. */
  function LoaderArguments(t: string): Json {
    JObj(map["game" := JArr([JStr("--modLoader"), JStr(t), JStr("--fml.forgeVersion"), JStr(FmlVersion)])])
  }

  /** The rewritten descriptor: a copy of `base` whose `id`, `arguments` and
      `mainClass` are replaced and whose `libraries` (created when absent)
      gains the loader library at the end. Extending a `libraries` value that
      is not a list raises. */
  function Rewritten(base: map<string, Json>, mc: string, loaderType: string): Result<map<string, Json>, Error> {
    var t := Lower(loaderType);
    var m := base["id" := JStr(mc + "-" + loaderType)]["arguments" := LoaderArguments(t)];
    var libs := if "libraries" in m then m["libraries"] else JArr([]);
    if !libs.JArr? then Err(AttributeError("extend"))
    else Ok(m["libraries" := JArr(libs.items + [ForgeLibrary(mc, t)])]["mainClass" := JStr(LaunchWrapper)])
  }

  /** The rewrite fails exactly when `libraries` is present but not a list. */
  lemma RewrittenFails(base: map<string, Json>, mc: string, loaderType: string)
    ensures Rewritten(base, mc, loaderType).Err? <==> "libraries" in base && !base["libraries"].JArr?
  {
    var m := base["id" := JStr(mc + "-" + loaderType)]["arguments" := LoaderArguments(Lower(loaderType))];
    assert "libraries" in m <==> "libraries" in base;
    if "libraries" in base {
      assert m["libraries"] == base["libraries"];
    }
  }

  /** What the rewrite changes: the id, arguments and main class get their
      new values, and the existing libraries keep their order with exactly
      one library after them. */
  lemma RewrittenChanges(base: map<string, Json>, mc: string, loaderType: string)
    requires Rewritten(base, mc, loaderType).Ok?
    ensures var m := Rewritten(base, mc, loaderType).value;
      var old_ := if "libraries" in base then base["libraries"].items else [];
      m["id"] == JStr(mc + "-" + loaderType) &&
      m["arguments"] == LoaderArguments(Lower(loaderType)) &&
      m["mainClass"] == JStr(LaunchWrapper) &&
      m["libraries"] == JArr(old_ + [ForgeLibrary(mc, Lower(loaderType))])
  {
    RewrittenFails(base, mc, loaderType);
    var m := base["id" := JStr(mc + "-" + loaderType)]["arguments" := LoaderArguments(Lower(loaderType))];
    if "libraries" in base {
      assert m["libraries"] == base["libraries"];
    }
  }

  /** What the rewrite keeps: the keys are those of `base` plus the four
      replaced ones, and every other key is copied unchanged. */
  lemma RewrittenKeeps(base: map<string, Json>, mc: string, loaderType: string)
    requires Rewritten(base, mc, loaderType).Ok?
    ensures var m := Rewritten(base, mc, loaderType).value;
      m.Keys == base.Keys + {"id", "arguments", "libraries", "mainClass"} &&
      (forall k :: k in base && k !in {"id", "arguments", "libraries", "mainClass"} ==> m[k] == base[k])
  {
  }

  /** The appended library is fetched from the Forge maven at exactly the
      path it is stored under. */
  lemma ForgeLibraryUrlIsPath(mc: string, t: string)
    ensures var a := ForgeLibrary(mc, t).fields["downloads"].fields["artifact"].fields;
      a["url"] == JStr(ForgeMaven + a["path"].s)
  {
  }

  /** `<home>/.minecraft/versions/<mc>-<type>/<mc>-<type>.json`. */
  function ModdedPath(home: Path, mc: string, loaderType: string): Path {
    var id := mc + "-" + loaderType;
    Join(Join(Join(Join(home, ".minecraft"), "versions"), id), id + ".json")
  }

  /** `run_installer`: `base` is the parsed base descriptor when its file
      exists. The copy is updated key by key; the result names the file the
      rewritten descriptor is written to. */
  method RunInstaller(home: Path, base: Option<map<string, Json>>, mc: string, loaderType: string)
    returns (r: Result<Option<(Path, map<string, Json>)>, Error>)
    ensures base.None? ==> r == Ok(None)
    ensures base.Some? ==>
      match Rewritten(base.value, mc, loaderType)
      case Err(e) => r == Err(e)
      case Ok(m) => r == Ok(Some((ModdedPath(home, mc, loaderType), m)))
  {
    if base.None? {
      return Ok(None);
    }
    var modded := base.value;
    modded := modded["id" := JStr(mc + "-" + loaderType)];
    modded := modded["arguments" := LoaderArguments(Lower(loaderType))];
    ghost var copied := modded;
    if "libraries" !in modded {
      modded := modded["libraries" := JArr([])];
    }
    ghost var libs := modded["libraries"];
    assert libs == if "libraries" in copied then copied["libraries"] else JArr([]);
    if !modded["libraries"].JArr? {
      return Err(AttributeError("extend"));
    }
    modded := modded["libraries" := JArr(modded["libraries"].items + [ForgeLibrary(mc, Lower(loaderType))])];
    modded := modded["mainClass" := JStr(LaunchWrapper)];
    assert modded == copied["libraries" := JArr(libs.items + [ForgeLibrary(mc, Lower(loaderType))])]["mainClass" := JStr(LaunchWrapper)];
    return Ok(Some((ModdedPath(home, mc, loaderType), modded)));
  }

  // ================================================================ dispatch

  /** What happens after an installer download: nothing without an
      installer, otherwise the rewrite, and the rewritten descriptor parsed. */
  function AfterInstaller(installer: Result<Option<Path>, Error>, base: Option<map<string, Json>>, mc: string,
                          loaderType: string, parse: map<string, Json> -> Result<VersionMetadata, Error>)
    : Result<Option<VersionMetadata>, Error>
  {
    match installer
    case Err(e) => Err(e)
    case Ok(None) => Ok(None)
    case Ok(Some(_)) =>
      if base.None? then Ok(None)
      else match Rewritten(base.value, mc, loaderType)
        case Err(e) => Err(e)
        case Ok(m) =>
          match parse(m)
          case Err(e) => Err(e)
          case Ok(v) => Ok(Some(v))
  }

  /** `install_modloader`: a case-insensitive dispatch on "forge" and
      "fabric"; `forge` and `fabric` are what the respective installer
      download produced. */
  function InstallModloader(mc: string, loaderType: string, forge: Result<Option<Path>, Error>,
                            fabric: Result<Option<Path>, Error>, base: Option<map<string, Json>>,
                            parse: map<string, Json> -> Result<VersionMetadata, Error>)
    : Result<Option<VersionMetadata>, Error>
  {
    var t := Lower(loaderType);
    if t == "forge" then AfterInstaller(forge, base, mc, loaderType, parse)
    else if t == "fabric" then AfterInstaller(fabric, base, mc, loaderType, parse)
    else Ok(None)
  }

  /** The dispatch: any other loader type, a missing installer or a missing
      base descriptor yields nothing; a forge or fabric install that gets
      through every step yields the parsed rewritten descriptor. */
  lemma InstallModloaderSpec(mc: string, loaderType: string, forge: Result<Option<Path>, Error>,
                             fabric: Result<Option<Path>, Error>, base: Option<map<string, Json>>,
                             parse: map<string, Json> -> Result<VersionMetadata, Error>)
    ensures Lower(loaderType) != "forge" && Lower(loaderType) != "fabric" ==>
      InstallModloader(mc, loaderType, forge, fabric, base, parse) == Ok(None)
    ensures base.None? ==> InstallModloader(mc, loaderType, forge, fabric, base, parse).Ok? ==>
      InstallModloader(mc, loaderType, forge, fabric, base, parse) == Ok(None)
    ensures InstallModloader(mc, loaderType, forge, fabric, base, parse).Ok? &&
            InstallModloader(mc, loaderType, forge, fabric, base, parse).value.Some? ==>
      base.Some? && Rewritten(base.value, mc, loaderType).Ok? &&
      parse(Rewritten(base.value, mc, loaderType).value) == Ok(InstallModloader(mc, loaderType, forge, fabric, base, parse).value.value) &&
      (Lower(loaderType) == "forge" ==> forge.Ok? && forge.value.Some?) &&
      (Lower(loaderType) == "fabric" ==> fabric.Ok? && fabric.value.Some?)
  {
  }

  /** The type is matched without regard to case: for every base descriptor,
      a type and its lower-cased form take the same branch (the same installer,
      or nothing). Only the branch ignores case: the rewritten descriptor's id
      keeps the type as given, so the outcomes themselves agree only when
      there is no base descriptor. */
  lemma InstallModloaderCaseInsensitive(mc: string, loaderType: string, forge: Result<Option<Path>, Error>,
                                        fabric: Result<Option<Path>, Error>, base: Option<map<string, Json>>,
                                        parse: map<string, Json> -> Result<VersionMetadata, Error>)
    ensures Lower(loaderType) == "forge" ==>
      InstallModloader(mc, loaderType, forge, fabric, base, parse) == AfterInstaller(forge, base, mc, loaderType, parse) &&
      InstallModloader(mc, Lower(loaderType), forge, fabric, base, parse) == AfterInstaller(forge, base, mc, Lower(loaderType), parse)
    ensures Lower(loaderType) == "fabric" ==>
      InstallModloader(mc, loaderType, forge, fabric, base, parse) == AfterInstaller(fabric, base, mc, loaderType, parse) &&
      InstallModloader(mc, Lower(loaderType), forge, fabric, base, parse) == AfterInstaller(fabric, base, mc, Lower(loaderType), parse)
    ensures Lower(loaderType) != "forge" && Lower(loaderType) != "fabric" ==>
      InstallModloader(mc, loaderType, forge, fabric, base, parse) == Ok(None) &&
      InstallModloader(mc, Lower(loaderType), forge, fabric, base, parse) == Ok(None)
    ensures InstallModloader(mc, loaderType, forge, fabric, None, parse)
         == InstallModloader(mc, Lower(loaderType), forge, fabric, None, parse)
  {
    LowerIdempotent(loaderType);
  }

  /** With the installer downloads as written, no install ever yields a descriptor. */
  lemma InstallNeverSucceedsAsWritten(mc: string, loaderType: string, v: string, forgeStatus: int,
                                      installers: seq<FabricInstaller>, fabricStatus: int, dir: Path,
                                      base: Option<map<string, Json>>,
                                      parse: map<string, Json> -> Result<VersionMetadata, Error>)
    ensures var r := InstallModloader(mc, loaderType, ForgeDownloadAsWritten(forgeStatus, dir, v),
                                      FabricDownloadAsWritten(installers, fabricStatus, dir), base, parse);
      !(r.Ok? && r.value.Some?)
  {
  }

  /** With the corrected downloads, a Forge install whose installer reply is
      200 and whose base descriptor rewrites and parses yields that descriptor. */
  lemma ForgeInstallSucceeds(mc: string, v: string, dir: Path, base: map<string, Json>,
                             installers: seq<FabricInstaller>, fabricStatus: int,
                             parse: map<string, Json> -> Result<VersionMetadata, Error>)
    requires Rewritten(base, mc, "forge").Ok? && parse(Rewritten(base, mc, "forge").value).Ok?
    ensures InstallModloader(mc, "forge", ForgeDownload(200, dir, v), FabricDownload(installers, fabricStatus, dir),
                             Some(base), parse)
         == Ok(Some(parse(Rewritten(base, mc, "forge").value).value))
  {
    assert Lower("forge") == "forge";
  }

  /** `get_modloader_versions`: the fixed Forge list, the version of every
      entry of the Fabric loader list, nothing for any other type. */
  function ModloaderVersions(loaderType: string, fabricLoaders: seq<string>): (r: seq<string>)
    ensures Lower(loaderType) != "forge" && Lower(loaderType) != "fabric" ==> r == []
    ensures Lower(loaderType) == "forge" ==> r == ["1.20.1-47.1.0", "1.19.4-45.1.0"]
    ensures Lower(loaderType) == "fabric" ==> r == fabricLoaders
  {
    var t := Lower(loaderType);
    if t == "forge" then ["1.20.1-47.1.0", "1.19.4-45.1.0"]
    else if t == "fabric" then fabricLoaders
    else []
  }

  // ================================================================ natives

  /** `path.suffix == ".jar"`: the last component has a `.jar` extension
      after a non-empty stem. */
  predicate IsJar(p: Path) {
    var n := Downloads.BaseName(p);
    |n| > 4 && n[|n| - 4..] == ".jar"
  }

  /** The archive entries `extract_natives` extracts. */
  function NativeEntries(entries: seq<string>): seq<string>
    decreases |entries|
  {
    if entries == [] then []
    else (if Contains(entries[0], "META-INF") then [] else [entries[0]]) + NativeEntries(entries[1..])
  }

  /** Exactly the entries without "META-INF" in their name, in archive order. */
  lemma {:induction false} NativeEntriesSpec(entries: seq<string>)
    ensures Subsequence(NativeEntries(entries), entries)
    ensures forall e :: e in NativeEntries(entries) <==> e in entries && !Contains(e, "META-INF")
    decreases |entries|
  {
    if entries != [] {
      NativeEntriesSpec(entries[1..]);
      var rest := NativeEntries(entries[1..]);
      if Contains(entries[0], "META-INF") {
        assert NativeEntries(entries) == rest;
      } else {
        assert NativeEntries(entries) == [entries[0]] + rest;
        assert NativeEntries(entries)[1..] == rest;
      }
      assert entries == [entries[0]] + entries[1..];
    }
  }

  /** An entry without "META-INF" is extracted as often as the archive lists
      it; any other entry never. */
  lemma {:induction false} NativeEntriesCount(entries: seq<string>)
    ensures forall e :: multiset(NativeEntries(entries))[e] ==
                        (if Contains(e, "META-INF") then 0 else multiset(entries)[e])
    decreases |entries|
  {
    if entries != [] {
      NativeEntriesCount(entries[1..]);
      assert entries == [entries[0]] + entries[1..];
    }
  }

  /** The loop over the archive's entries: every entry whose name does not
      mention "META-INF" is extracted, in archive order. */
  method ExtractEntries(entries: seq<string>) returns (extracted: seq<string>)
    ensures extracted == NativeEntries(entries)
  {
    extracted := [];
    for i := 0 to |entries|
      invariant NativeEntries(entries) == extracted + NativeEntries(entries[i..])
    {
      NativeEntriesStep(entries, i);
      ghost var later := NativeEntries(entries[i + 1..]);
      if !Contains(entries[i], "META-INF") {
        assert extracted + ([entries[i]] + later) == (extracted + [entries[i]]) + later;
        extracted := extracted + [entries[i]];
      } else {
        assert [] + later == later;
      }
    }
    assert entries[|entries|..] == [];
  }

  /** One entry further into the archive. */
  lemma NativeEntriesStep(entries: seq<string>, i: int)
    requires 0 <= i < |entries|
    ensures NativeEntries(entries[i..]) ==
      (if Contains(entries[i], "META-INF") then [] else [entries[i]]) + NativeEntries(entries[i + 1..])
  {
    assert entries[i..][1..] == entries[i + 1..];
  }

  /** `extract_natives`: the entries extracted from `libPath`, or none when it
      is not an existing `.jar` file. */
  method ExtractNatives(libPath: Path, exists_: Path -> bool, entries: seq<string>) returns (extracted: seq<string>)
    ensures !(exists_(libPath) && IsJar(libPath)) ==> extracted == []
    ensures exists_(libPath) && IsJar(libPath) ==> extracted == NativeEntries(entries)
  {
    if exists_(libPath) && IsJar(libPath) {
      extracted := ExtractEntries(entries);
    } else {
      extracted := [];
    }
  }
}
