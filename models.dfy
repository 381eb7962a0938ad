/** The version descriptor shapes of `src/versions/models.py`: permissive
    records in which almost every field may be absent. Timestamps are kept
    opaque, and `Dict[str, Any]` fields hold raw JSON values. */
module Models {
  import opened Common

  /** A raw JSON value, for the fields the launcher keeps as plain dicts. */
  datatype Json =
    | JNull
    | JBool(b: bool)
    | JInt(n: int)
    | JStr(s: string)
    | JArr(items: seq<Json>)
    | JObj(fields: map<string, Json>)

  /** A `datetime` field; the launcher never inspects one. */
  datatype Timestamp = Timestamp(raw: string)

  datatype VersionDownloads = VersionDownloads(
    client: Option<map<string, Json>>,
    server: Option<map<string, Json>>)

  datatype LibraryExtractor = LibraryExtractor(exclude: Option<seq<string>>)

  /** `size` is declared `Union[int, str]`. */
  datatype ArtifactSize = SizeInt(n: int) | SizeText(text: string)

  datatype LibraryArtifact = LibraryArtifact(
    path: Option<string>,
    sha1: Option<string>,
    size: Option<ArtifactSize>,
    url: Option<string>)

  datatype LibraryDownloads = LibraryDownloads(
    artifact: Option<LibraryArtifact>,
    classifiers: Option<map<string, Json>>)

  datatype RuleOs = RuleOs(name: Option<string>, version: Option<string>, arch: Option<string>)

  /** A library rule: `action` is required, the OS filter is not. */
  datatype LibraryRule = LibraryRule(action: string, os: Option<RuleOs>)

  datatype Library = Library(
    name: string,
    downloads: Option<LibraryDownloads>,
    rules: Option<seq<LibraryRule>>,
    extract: Option<LibraryExtractor>,
    natives: Option<map<string, string>>)

  datatype AssetsDetail = AssetsDetail(
    id: Option<string>,
    sha1: Option<string>,
    size: Option<int>,
    totalSize: Option<int>,
    url: Option<string>)

  /** `assets` is either a bare index id (old descriptors) or a detailed object. */
  datatype Assets = AssetsId(id: string) | AssetsObject(detail: AssetsDetail)

  /** One entry of the version manifest. */
  datatype VersionInfo = VersionInfo(
    id: string,
    releaseType: string,
    url: string,
    time: Timestamp,
    releaseTime: Timestamp,
    sha1: Option<string>,
    complianceLevel: int)

  datatype VersionManifest = VersionManifest(latest: map<string, string>, versions: seq<VersionInfo>)

  /** A parsed `version.json`: only `id` is required. */
  datatype VersionMetadata = VersionMetadata(
    id: string,
    versionType: Option<string>,
    time: Option<Timestamp>,
    releaseTime: Option<Timestamp>,
    minimumLauncherVersion: Option<int>,
    downloads: Option<VersionDownloads>,
    assets: Option<Assets>,
    arguments: Option<map<string, Json>>,
    minecraftArguments: Option<string>,
    libraries: Option<seq<Library>>,
    mainClass: Option<string>,
    jar: Option<string>)

  /** What pydantic builds from a document holding only the required `id`. */
  function MinimalMetadata(id: string): (m: VersionMetadata)
    ensures m.id == id
    ensures m.versionType.None? && m.time.None? && m.releaseTime.None?
    ensures m.minimumLauncherVersion.None? && m.downloads.None? && m.assets.None?
    ensures m.arguments.None? && m.minecraftArguments.None? && m.libraries.None?
    ensures m.mainClass.None? && m.jar.None?
  {
    VersionMetadata(id, None, None, None, None, None, None, None, None, None, None, None)
  }

  /** A library declaring only its coordinate name. */
  function MinimalLibrary(name: string): (l: Library)
    ensures l.name == name
    ensures l.downloads.None? && l.rules.None? && l.extract.None? && l.natives.None?
  {
    Library(name, None, None, None, None)
  }

  /** A manifest entry as parsed from a document that omits the optional fields. */
  function ManifestEntry(id: string, releaseType: string, url: string, time: Timestamp, releaseTime: Timestamp): (v: VersionInfo)
    ensures v.id == id && v.releaseType == releaseType && v.url == url
    ensures v.sha1.None? && v.complianceLevel == 0
  {
    VersionInfo(id, releaseType, url, time, releaseTime, None, 0)
  }
}
