/** The fetcher and download orchestration of
    `src/versions/download_manager.py`. The file system is an explicit map
    from paths to contents, the network an oracle from URLs to replies, and
    SHA-1 an uninterpreted digest function. The tasks that `asyncio.gather`
    runs concurrently are run one after another here: their outcomes do not
    depend on each other, so only the order of the result list matters. */
module Downloads {
  import opened Common
  import opened Models

  newtype byte = x: int | 0 <= x < 256

  /** One item of `resp.content.iter_chunks()`: the bytes received and
      aiohttp's end-of-HTTP-chunk flag, which is always false for a response
      sent without chunked transfer encoding. */
  datatype Chunk = Chunk(data: seq<byte>, endOfHttpChunk: bool)

  /** A response: its status, its Content-Length, the chunks received, and
      whether the stream then broke off (connection reset, payload error or a
      failed write) instead of ending. */
  datatype Response = Response(status: int, contentLength: int, chunks: seq<Chunk>, interrupted: bool)

  /** What a GET produces: a response, or no response at all (refused
      connection, unresolvable host, malformed URL). */
  datatype Reply = Answered(resp: Response) | Unreachable

  /** The result of one `download_file` task: a returned bool or a raised exception,
      which is what each slot of `asyncio.gather(..., return_exceptions=True)` holds.
      `Blocked` is a call that never completes: a semaphore created with no
      slot makes `acquire()` wait forever. */
  datatype Outcome = Returned(ok: bool) | Raised(error: Error) | Blocked

  /** A result that may never arrive, for the same reason. */
  datatype Awaited<T> = Done(value: T) | NeverDone

  /** One `download_file` call: source, destination and expected hash. */
  datatype Task = Task(url: Option<string>, dest: Path, sha1: Option<string>)

  /** One progress notification `(name, bytes done, bytes total)`. */
  datatype Progress = Progress(name: string, done: int, total: int)

  /** `path.name`: the last component. */
  function BaseName(p: Path): string {
    var parts := Split(p, '/');
    parts[|parts| - 1]
  }

  // ================================================================ streaming

  /** The bytes of every received chunk, in arrival order. */
  function Body(chunks: seq<Chunk>): (b: seq<byte>)
    decreases |chunks|
  {
    if chunks == [] then [] else Body(chunks[..|chunks| - 1]) + chunks[|chunks| - 1].data
  }

  /** Total number of bytes received. */
  function Received(chunks: seq<Chunk>): nat
    decreases |chunks|
  {
    if chunks == [] then 0 else Received(chunks[..|chunks| - 1]) + |chunks[|chunks| - 1].data|
  }

  /** Streaming a response in two parts writes the two parts one after the other. */
  lemma {:induction false} BodyAppend(s: seq<Chunk>, t: seq<Chunk>)
    ensures Body(s + t) == Body(s) + Body(t)
    decreases |t|
  {
    if t == [] {
      assert s + t == s;
    } else {
      assert (s + t)[..|s + t| - 1] == s + t[..|t| - 1];
      BodyAppend(s, t[..|t| - 1]);
    }
  }

  /** The file written holds exactly the number of bytes received. */
  lemma {:induction false} BodyLength(chunks: seq<Chunk>)
    ensures |Body(chunks)| == Received(chunks)
    decreases |chunks|
  {
    if chunks != [] {
      BodyLength(chunks[..|chunks| - 1]);
    }
  }

  /** What the streaming loop writes as coded: it skips every chunk whose
      end-of-HTTP-chunk flag is false. */
  function BodyAsWritten(chunks: seq<Chunk>): seq<byte>
    decreases |chunks|
  {
    if chunks == [] then []
    else BodyAsWritten(chunks[..|chunks| - 1]) +
         (if chunks[|chunks| - 1].endOfHttpChunk then chunks[|chunks| - 1].data else [])
  }

  /** For a response sent with a Content-Length (no chunked encoding) every
      flag is false, so the loop as coded writes an empty file. */
  lemma {:induction false} PlainResponseWrittenEmpty(chunks: seq<Chunk>)
    requires forall k :: 0 <= k < |chunks| ==> !chunks[k].endOfHttpChunk
    ensures BodyAsWritten(chunks) == []
    decreases |chunks|
  {
    if chunks != [] {
      PlainResponseWrittenEmpty(chunks[..|chunks| - 1]);
    }
  }

  /** Concrete instance: a three-byte plain response is written as an empty
      file by the code as written, and in full by the corrected loop. */
  lemma PlainResponseLosesData()
    ensures var chunks := [Chunk([1, 2, 3], false)];
            BodyAsWritten(chunks) == [] && Body(chunks) == [1, 2, 3]
  {
    var chunks := [Chunk([1, 2, 3], false)];
    assert chunks[..0] == [];
  }

  /** The notifications sent while streaming `chunks` with a callback: one per
      chunk, carrying the running byte count. */
  function ProgressEvents(chunks: seq<Chunk>, name: string, total: int): seq<Progress>
    decreases |chunks|
  {
    if chunks == [] then []
    else ProgressEvents(chunks[..|chunks| - 1], name, total) + [Progress(name, Received(chunks), total)]
  }

  /** One more chunk: its bytes are appended, its size added to the count,
      and one notification with the new count is sent. */
  lemma PrefixStep(chunks: seq<Chunk>, i: int, name: string, total: int)
    requires 0 <= i < |chunks|
    ensures Body(chunks[..i + 1]) == Body(chunks[..i]) + chunks[i].data
    ensures Received(chunks[..i + 1]) == Received(chunks[..i]) + |chunks[i].data|
    ensures ProgressEvents(chunks[..i + 1], name, total) ==
      ProgressEvents(chunks[..i], name, total) + [Progress(name, Received(chunks[..i + 1]), total)]
  {
    assert chunks[..i + 1][..i] == chunks[..i];
  }

  /** The reported byte count never decreases, and the last report is the
      whole body. */
  lemma {:induction false} ProgressMonotone(chunks: seq<Chunk>, name: string, total: int)
    ensures |ProgressEvents(chunks, name, total)| == |chunks|
    ensures forall i, j :: 0 <= i <= j < |chunks| ==>
      ProgressEvents(chunks, name, total)[i].done <= ProgressEvents(chunks, name, total)[j].done
    ensures chunks != [] ==> ProgressEvents(chunks, name, total)[|chunks| - 1].done == |Body(chunks)|
    decreases |chunks|
  {
    BodyLength(chunks);
    if chunks != [] {
      var init := chunks[..|chunks| - 1];
      ProgressMonotone(init, name, total);
      var ev := ProgressEvents(chunks, name, total);
      var ev0 := ProgressEvents(init, name, total);
      assert ev == ev0 + [Progress(name, Received(chunks), total)];
      if init != [] {
        BodyLength(init);
        assert ev0[|init| - 1].done == Received(init);
      }
      forall i, j | 0 <= i <= j < |chunks|
        ensures ev[i].done <= ev[j].done
      {
        if j < |init| {
          assert ev[i] == ev0[i] && ev[j] == ev0[j];
        } else if i < |init| {
          assert ev0[i].done <= ev0[|init| - 1].done;
        }
      }
    }
  }

  // ================================================================ one download

  /** The outcome of `download_file(task)` once it holds a slot: the request
      raises without a URL, without a response, or on a status of 400 or more;
      a stream that breaks off raises; otherwise the call returns true when no
      (non-empty) hash is expected, and the result of the hash check against
      the written body when one is. */
  function FetchOutcome(task: Task, net: string -> Reply, digest: seq<byte> -> string): Outcome {
    match task.url
    case None => Raised(TypeError("URL is None"))
    case Some(u) =>
      match net(u)
      case Unreachable => Raised(NetworkFailure)
      case Answered(resp) =>
        if resp.status >= 400 then Raised(HttpStatus(resp.status))
        else if resp.interrupted then Raised(NetworkFailure)
        else if Truthy(task.sha1) then Returned(digest(Body(resp.chunks)) == Lower(task.sha1.value))
        else Returned(true)
  }

  /** The response `download_file(task)` streams to disk: there is a URL, a
      reply to it, and a status below 400. */
  function Accepted(task: Task, net: string -> Reply): (r: Option<Response>)
    ensures r.Some? <==> task.url.Some? && net(task.url.value).Answered? && net(task.url.value).resp.status < 400
    ensures r.Some? ==> r.value == net(task.url.value).resp
  {
    if task.url.Some? && net(task.url.value).Answered? && net(task.url.value).resp.status < 400
    then Some(net(task.url.value).resp) else None
  }

  /** The file system after `download_file(task)`: once a response is
      accepted the destination is truncated and receives every chunk that
      arrives, whatever the hash check then says, and keeps the bytes received
      so far when the stream breaks off; before that nothing is touched. */
  function AfterFetch(files: map<Path, seq<byte>>, task: Task, net: string -> Reply): map<Path, seq<byte>> {
    match Accepted(task, net)
    case None => files
    case Some(resp) => files[task.dest := Body(resp.chunks)]
  }

  /** A download that returns (rather than raises) has written its destination. */
  lemma ReturnedMeansWritten(task: Task, files: map<Path, seq<byte>>, net: string -> Reply, digest: seq<byte> -> string)
    ensures FetchOutcome(task, net, digest).Returned? <==>
      Accepted(task, net).Some? && !Accepted(task, net).value.interrupted
    ensures FetchOutcome(task, net, digest).Returned? ==>
      task.dest in AfterFetch(files, task, net) &&
      AfterFetch(files, task, net)[task.dest] == Body(net(task.url.value).resp.chunks)
  {
  }

  /** A stream that breaks off raises and leaves the bytes received so far at
      the destination, which the next run overwrites without checking. */
  lemma InterruptedLeavesPartialFile(task: Task, files: map<Path, seq<byte>>, net: string -> Reply,
                                     digest: seq<byte> -> string)
    requires Accepted(task, net).Some? && Accepted(task, net).value.interrupted
    ensures FetchOutcome(task, net, digest) == Raised(NetworkFailure)
    ensures task.dest in AfterFetch(files, task, net)
    ensures AfterFetch(files, task, net)[task.dest] == Body(Accepted(task, net).value.chunks)
  {
  }

  /** Without an expected hash a download that gets a response reports success. */
  lemma NoHashMeansSuccess(task: Task, net: string -> Reply, digest: seq<byte> -> string)
    requires !Truthy(task.sha1)
    ensures FetchOutcome(task, net, digest).Returned? ==> FetchOutcome(task, net, digest) == Returned(true)
  {
  }

  /** A hash mismatch returns false and leaves the mismatching body at the
      destination: there is no temporary file and no clean-up. */
  lemma MismatchLeavesFile(task: Task, files: map<Path, seq<byte>>, net: string -> Reply, digest: seq<byte> -> string)
    requires FetchOutcome(task, net, digest) == Returned(false)
    ensures task.dest in AfterFetch(files, task, net)
    ensures digest(AfterFetch(files, task, net)[task.dest]) != Lower(task.sha1.value)
  {
  }

  /** The file system after running `tasks` in order. */
  function AfterAll(files: map<Path, seq<byte>>, tasks: seq<Task>, net: string -> Reply): map<Path, seq<byte>>
    decreases |tasks|
  {
    if tasks == [] then files
    else AfterFetch(AfterAll(files, tasks[..|tasks| - 1], net), tasks[|tasks| - 1], net)
  }

  /** A path that no task targets is left exactly as it was: one failed or
      corrupt download never disturbs its siblings' files. */
  lemma {:induction false} AfterAllUntouched(files: map<Path, seq<byte>>, tasks: seq<Task>, net: string -> Reply, p: Path)
    requires forall k :: 0 <= k < |tasks| ==> tasks[k].dest != p
    ensures p in AfterAll(files, tasks, net) <==> p in files
    ensures p in files ==> AfterAll(files, tasks, net)[p] == files[p]
    decreases |tasks|
  {
    if tasks != [] {
      AfterAllUntouched(files, tasks[..|tasks| - 1], net, p);
    }
  }

  // ================================================================ verify_sha1

  /** `verify_sha1`: the file is fed to the hasher in 8192-byte blocks and the
      hex digest compared with the expected hash lower-cased. The hasher's state
      is the sequence of bytes fed so far. Opening a missing file raises. */
  method VerifySha1(files: map<Path, seq<byte>>, path: Path, expected: string, digest: seq<byte> -> string)
    returns (r: Result<bool, Error>)
    ensures path !in files ==> r == Err(FileNotFound(path))
    ensures path in files ==> r == Ok(digest(files[path]) == Lower(expected))
  {
    if path !in files {
      return Err(FileNotFound(path));
    }
    var content := files[path];
    var fed: seq<byte> := [];
    var pos := 0;
    while pos < |content|
      invariant 0 <= pos <= |content|
      invariant fed == content[..pos]
    {
      var n := if |content| - pos < 8192 then |content| - pos else 8192;
      var block := content[pos..pos + n];
      fed := fed + block;
      pos := pos + n;
    }
    assert fed == content;
    return Ok(digest(fed) == Lower(expected));
  }

  // ================================================================ planning

  /** `lib.downloads.artifact` when both are present. */
  function ArtifactOf(lib: Library): Option<LibraryArtifact> {
    if lib.downloads.Some? && lib.downloads.value.artifact.Some? then lib.downloads.value.artifact else None
  }

  /** The artifacts of the libraries that have one, in library order. */
  function Artifacts(libs: seq<Library>): (r: seq<LibraryArtifact>)
    ensures |r| <= |libs|
    decreases |libs|
  {
    if libs == [] then []
    else (if ArtifactOf(libs[0]).Some? then [ArtifactOf(libs[0]).value] else []) + Artifacts(libs[1..])
  }

  /** The task for one artifact: `<root>/libraries/<path>` with the artifact's
      url and sha1. `Path / None` raises while the task list is being built. */
  function LibraryTask(root: Path, a: LibraryArtifact): Result<Task, Error> {
    if a.path.None? then Err(TypeError("Path / None"))
    else Ok(Task(a.url, Join(Join(root, "libraries"), a.path.value), a.sha1))
  }

  /** The task list `download_libraries` builds, or the error raised while building it. */
  function LibraryTasks(root: Path, artifacts: seq<LibraryArtifact>): Result<seq<Task>, Error>
    decreases |artifacts|
  {
    if artifacts == [] then Ok([])
    else match LibraryTask(root, artifacts[0])
      case Err(e) => Err(e)
      case Ok(t) =>
        match LibraryTasks(root, artifacts[1..])
        case Err(e) => Err(e)
        case Ok(ts) => Ok([t] + ts)
  }

  /** Exactly one task per library that has an artifact, in library order, with
      destination `<root>/libraries/<artifact.path>` and expected hash
      `artifact.sha1`; building fails exactly when such an artifact has no path. */
  lemma {:induction false} LibraryTasksSpec(root: Path, artifacts: seq<LibraryArtifact>)
    ensures LibraryTasks(root, artifacts).Ok? <==> forall k :: 0 <= k < |artifacts| ==> artifacts[k].path.Some?
    ensures LibraryTasks(root, artifacts).Ok? ==>
      var ts := LibraryTasks(root, artifacts).value;
      |ts| == |artifacts| &&
      forall k :: 0 <= k < |ts| ==>
        ts[k] == Task(artifacts[k].url, Join(Join(root, "libraries"), artifacts[k].path.value), artifacts[k].sha1)
    decreases |artifacts|
  {
    if artifacts != [] {
      LibraryTasksSpec(root, artifacts[1..]);
      if LibraryTasks(root, artifacts).Ok? {
        var ts := LibraryTasks(root, artifacts).value;
        forall k | 0 <= k < |ts|
          ensures ts[k] == Task(artifacts[k].url, Join(Join(root, "libraries"), artifacts[k].path.value), artifacts[k].sha1)
        {
          if k > 0 {
            assert ts[k] == LibraryTasks(root, artifacts[1..]).value[k - 1];
            assert artifacts[1..][k - 1] == artifacts[k];
          }
        }
      }
      if forall k :: 0 <= k < |artifacts| ==> artifacts[k].path.Some? {
        assert forall k :: 0 <= k < |artifacts[1..]| ==> artifacts[1..][k] == artifacts[k + 1];
      }
    }
  }

  /** Every library with an artifact contributes it, and nothing else does. */
  lemma {:induction false} ArtifactsSpec(libs: seq<Library>)
    ensures forall a :: a in Artifacts(libs) <==> exists k :: 0 <= k < |libs| && ArtifactOf(libs[k]) == Some(a)
    decreases |libs|
  {
    if libs != [] {
      ArtifactsSpec(libs[1..]);
      forall a ensures a in Artifacts(libs) <==> exists k :: 0 <= k < |libs| && ArtifactOf(libs[k]) == Some(a) {
        if exists k :: 0 <= k < |libs[1..]| && ArtifactOf(libs[1..][k]) == Some(a) {
          var k :| 0 <= k < |libs[1..]| && ArtifactOf(libs[1..][k]) == Some(a);
          assert ArtifactOf(libs[k + 1]) == Some(a);
        }
        if exists k :: 0 <= k < |libs| && ArtifactOf(libs[k]) == Some(a) {
          var k :| 0 <= k < |libs| && ArtifactOf(libs[k]) == Some(a);
          if k > 0 { assert libs[1..][k - 1] == libs[k]; }
        }
      }
    }
  }

  /** A library added at the end contributes its artifact, if any, after all the others'. */
  lemma {:induction false} ArtifactsSnoc(libs: seq<Library>, l: Library)
    ensures Artifacts(libs + [l]) == Artifacts(libs) + (if ArtifactOf(l).Some? then [ArtifactOf(l).value] else [])
    decreases |libs|
  {
    if libs == [] {
      assert libs + [l] == [l];
      assert [l][1..] == [];
    } else {
      assert (libs + [l])[0] == libs[0];
      assert (libs + [l])[1..] == libs[1..] + [l];
      ArtifactsSnoc(libs[1..], l);
      var h := if ArtifactOf(libs[0]).Some? then [ArtifactOf(libs[0]).value] else [];
      var t := if ArtifactOf(l).Some? then [ArtifactOf(l).value] else [];
      assert h + (Artifacts(libs[1..]) + t) == (h + Artifacts(libs[1..])) + t;
    }
  }

  /** `idx` maps each element of `arts` to the library it came from: the
      positions increase, and every library with an artifact is one of them. */
  ghost predicate IndexMap(libs: seq<Library>, arts: seq<LibraryArtifact>, idx: seq<int>) {
    |idx| == |arts| &&
    (forall j :: 0 <= j < |idx| ==> 0 <= idx[j] < |libs| && ArtifactOf(libs[idx[j]]) == Some(arts[j])) &&
    (forall i, j :: 0 <= i < j < |idx| ==> idx[i] < idx[j]) &&
    (forall k :: 0 <= k < |libs| && ArtifactOf(libs[k]).Some? ==> exists j :: 0 <= j < |idx| && idx[j] == k)
  }

  /** Exactly one artifact per library that has one, in library order. */
  lemma {:induction false} ArtifactsInLibraryOrder(libs: seq<Library>)
    ensures exists idx :: IndexMap(libs, Artifacts(libs), idx)
    decreases |libs|
  {
    if libs == [] {
      assert Artifacts(libs) == [];
      assert IndexMap(libs, Artifacts(libs), []);
    } else {
      var n := |libs| - 1;
      assert libs[..n] + [libs[n]] == libs;
      ArtifactsInLibraryOrder(libs[..n]);
      var idx :| IndexMap(libs[..n], Artifacts(libs[..n]), idx);
      ArtifactsSnoc(libs[..n], libs[n]);
      IndexMapSnoc(libs[..n], libs[n], Artifacts(libs[..n]), idx);
      if ArtifactOf(libs[n]).Some? {
        assert IndexMap(libs, Artifacts(libs), idx + [n]);
      } else {
        assert IndexMap(libs, Artifacts(libs), idx);
      }
    }
  }

  /** The index map grows by the new library's position when it has an artifact. */
  lemma IndexMapSnoc(init: seq<Library>, l: Library, arts: seq<LibraryArtifact>, idx: seq<int>)
    requires IndexMap(init, arts, idx)
    ensures ArtifactOf(l).Some? ==> IndexMap(init + [l], arts + [ArtifactOf(l).value], idx + [|init|])
    ensures ArtifactOf(l).None? ==> IndexMap(init + [l], arts, idx)
  {
    var libs := init + [l];
    var n := |init|;
    var arts2 := if ArtifactOf(l).Some? then arts + [ArtifactOf(l).value] else arts;
    var idx2 := if ArtifactOf(l).Some? then idx + [n] else idx;
    forall j | 0 <= j < |idx2|
      ensures 0 <= idx2[j] < |libs| && ArtifactOf(libs[idx2[j]]) == Some(arts2[j])
    {
      if j < |idx| {
        assert idx2[j] == idx[j] && libs[idx[j]] == init[idx[j]] && arts2[j] == arts[j];
      }
    }
    forall i, j | 0 <= i < j < |idx2| ensures idx2[i] < idx2[j] {
      assert idx2[i] == idx[i];
      if j < |idx| {
        assert idx2[j] == idx[j];
      }
    }
    forall k | 0 <= k < |libs| && ArtifactOf(libs[k]).Some?
      ensures exists j :: 0 <= j < |idx2| && idx2[j] == k
    {
      if k < n {
        assert init[k] == libs[k];
        var j :| 0 <= j < |idx| && idx[j] == k;
        assert idx2[j] == k;
      } else {
        assert idx2[|idx|] == k;
      }
    }
    assert IndexMap(libs, arts2, idx2);
  }

  /** Base URL of the content-addressed asset store. */
  const AssetBaseUrl: string := "https://resources.download.minecraft.net/"

  /** `h[:2]`: the first two characters, or all of a shorter string. */
  function HashPrefix(h: string): (p: string)
    ensures |p| == if |h| < 2 then |h| else 2
    ensures p <= h
  {
    if |h| < 2 then h else h[..2]
  }

  /** The task for the asset object with hash `h`: fetched from
      `<base><h[:2]>/<h>` into `<root>/assets/objects/<h[:2]>/<h>`, checked against `h`. */
  function AssetTask(root: Path, h: string): (t: Task)
    ensures t.sha1 == Some(h)
  {
    Task(Some(AssetBaseUrl + HashPrefix(h) + "/" + h),
         Join(Join(Join(Join(root, "assets"), "objects"), HashPrefix(h)), h),
         Some(h))
  }

  /** Content addressing: the destination path determines the hash, so two
      different asset objects never share a file and identical ones always do. */
  lemma AssetDestInjective(root: Path, h1: string, h2: string)
    requires AssetTask(root, h1).dest == AssetTask(root, h2).dest
    ensures h1 == h2
  {
    AssetDestShape(root, h1);
    AssetDestShape(root, h2);
    var d := AssetTask(root, h1).dest;
    assert |h1| == |h2|;
    assert h1 == d[|d| - |h1|..];
  }

  /** The destination of an asset ends in its hash, after a prefix of at most two characters and a "/". */
  lemma AssetDestShape(root: Path, h: string)
    ensures var d := AssetTask(root, h).dest;
      |d| == |Join(Join(Join(root, "assets"), "objects"), "")| + |HashPrefix(h)| + 1 + |h| &&
      d[|d| - |h|..] == h
  {
  }

  /** One object of an asset index: its content hash and size. */
  datatype AssetObject = AssetObject(hash: string, size: int)

  /** A parsed asset index; `objects` keeps the document's key order. */
  datatype AssetIndex = AssetIndex(objects: Option<seq<(string, AssetObject)>>)

  /** `asset_index.get('objects', {})`. */
  function IndexObjects(index: AssetIndex): seq<(string, AssetObject)> {
    index.objects.GetOr([])
  }

  /** The tasks `download_assets` builds for `objects`, in the same order. */
  function AssetTasks(root: Path, objects: seq<(string, AssetObject)>): (ts: seq<Task>)
    ensures |ts| == |objects|
    ensures forall k :: 0 <= k < |ts| ==> ts[k] == AssetTask(root, objects[k].1.hash)
    decreases |objects|
  {
    if objects == [] then [] else [AssetTask(root, objects[0].1.hash)] + AssetTasks(root, objects[1..])
  }

  /** Two objects with the same hash are one download target; two with
      different hashes never write the same file. */
  lemma AssetTasksShareOnlyByHash(root: Path, objects: seq<(string, AssetObject)>, i: int, j: int)
    requires 0 <= i < |objects| && 0 <= j < |objects|
    ensures AssetTasks(root, objects)[i].dest == AssetTasks(root, objects)[j].dest <==>
            objects[i].1.hash == objects[j].1.hash
  {
    if AssetTasks(root, objects)[i].dest == AssetTasks(root, objects)[j].dest {
      AssetDestInjective(root, objects[i].1.hash, objects[j].1.hash);
    }
  }

  // ================================================================ version jar

  /** The archival download location of a client jar. */
  function LegacyJarUrl(id: string): string {
    "https://s3.amazonaws.com/Minecraft.Download/versions/" + id + "/" + id + ".jar"
  }

  function VersionJarPath(root: Path, id: string): Path {
    Join(Join(Join(root, "versions"), id), id + ".jar")
  }

  /** The `client` dict of the descriptor's downloads, when present and non-empty. */
  function ClientEntry(metadata: VersionMetadata): Option<map<string, Json>> {
    if metadata.downloads.Some? && metadata.downloads.value.client.Some? && metadata.downloads.value.client.value != map[]
    then metadata.downloads.value.client else None
  }

  /** A string-valued key of a JSON object, as `dict.get(key)`. */
  function StringField(fields: map<string, Json>, key: string): Option<string> {
    if key in fields && fields[key].JStr? then Some(fields[key].s) else None
  }

  /** The jar download the code as written performs: `getattr(dict, 'url', None)`
      is always None for the dict `client`, so the archival URL is used, unchecked. */
  function JarTaskAsWritten(root: Path, metadata: VersionMetadata): Task {
    Task(Some(LegacyJarUrl(metadata.id)), VersionJarPath(root, metadata.id), None)
  }

  /** A modern descriptor whose client entry names a URL and hash still gets
      the archival URL with no hash check under the code as written. */
  lemma ClientUrlIgnoredAsWritten(root: Path, metadata: VersionMetadata, url: string, sha1: string)
    requires metadata.id == "1.20.1"
    requires url != LegacyJarUrl("1.20.1")
    requires metadata.downloads == Some(VersionDownloads(Some(map["url" := JStr(url), "sha1" := JStr(sha1)]), None))
    ensures JarTaskAsWritten(root, metadata).url != Some(url)
    ensures JarTaskAsWritten(root, metadata).sha1.None?
  {
  }

  /** The intended choice: the client entry's URL and hash when it has a URL,
      otherwise the archival URL without a hash. The flag says which. */
  function JarTask(root: Path, metadata: VersionMetadata): (Task, bool) {
    var dest := VersionJarPath(root, metadata.id);
    match ClientEntry(metadata)
    case Some(client) =>
      if Truthy(StringField(client, "url"))
      then (Task(StringField(client, "url"), dest, StringField(client, "sha1")), false)
      else (Task(Some(LegacyJarUrl(metadata.id)), dest, None), true)
    case None => (Task(Some(LegacyJarUrl(metadata.id)), dest, None), true)
  }

  /** The corrected choice uses the declared URL and hash whenever there is one,
      and the archival URL only otherwise; both write the same destination. */
  lemma JarTaskUsesClientUrl(root: Path, metadata: VersionMetadata)
    ensures JarTask(root, metadata).0.dest == VersionJarPath(root, metadata.id)
    ensures ClientEntry(metadata).Some? && Truthy(StringField(ClientEntry(metadata).value, "url")) ==>
      JarTask(root, metadata) == (Task(StringField(ClientEntry(metadata).value, "url"), VersionJarPath(root, metadata.id),
                                       StringField(ClientEntry(metadata).value, "sha1")), false)
    ensures !(ClientEntry(metadata).Some? && Truthy(StringField(ClientEntry(metadata).value, "url"))) ==>
      JarTask(root, metadata) == (JarTaskAsWritten(root, metadata), true)
  {
  }

  /** The result of `download_version_jar`: a download from the declared URL
      propagates whatever it raises; the archival fallback swallows an
      exception into `false`. */
  function JarOutcome(task: Task, fallback: bool, net: string -> Reply, digest: seq<byte> -> string): Outcome {
    var o := FetchOutcome(task, net, digest);
    if fallback && o.Raised? then Returned(false) else o
  }

  /** The archival fallback never raises: a version whose jar is no longer
      hosted yields `false` instead of aborting resolution. */
  lemma FallbackNeverRaises(root: Path, metadata: VersionMetadata, net: string -> Reply, digest: seq<byte> -> string)
    requires JarTask(root, metadata).1
    ensures JarOutcome(JarTask(root, metadata).0, true, net, digest).Returned?
  {
  }

  // ================================================================ asset index

  /** What `download_asset_index` does with the descriptor's `assets`. */
  datatype IndexPlan = NoIndex | EmptyIndex | FetchIndex(task: Task)

  /** An f-string renders an absent id as `None`. */
  function IdText(id: Option<string>): string {
    if id.Some? then id.value else "None"
  }

  /** Absent or empty `assets`: nothing; a legacy string: the empty index; a
      detailed object: download `<root>/assets/indexes/<id>.json`. */
  function AssetIndexPlan(root: Path, metadata: VersionMetadata): IndexPlan {
    match metadata.assets
    case None => NoIndex
    case Some(AssetsId(s)) => if s == "" then NoIndex else EmptyIndex
    case Some(AssetsObject(d)) =>
      FetchIndex(Task(d.url, Join(Join(Join(root, "assets"), "indexes"), IdText(d.id) + ".json"), d.sha1))
  }

  // ================================================================ the manager

  /** `DownloadManager`: the semaphore's free-slot counter, the files it
      writes and the progress notifications it sends. */
  class DownloadManager {
    const root: Path        // Path.home() / ".minecraft"
    const limit: nat        // concurrent_downloads
    var slots: int          // the semaphore's counter
    var files: map<Path, seq<byte>>
    var progress: seq<Progress>

    ghost predicate Valid()
      reads this
    {
      0 <= slots <= limit
    }

    constructor (root: Path, concurrentDownloads: nat, initial: map<Path, seq<byte>>)
      ensures Valid() && this.root == root
      ensures limit == concurrentDownloads && slots == concurrentDownloads
      ensures files == initial && progress == []
    {
      this.root := root;
      limit := concurrentDownloads;
      slots := concurrentDownloads;
      files := initial;
      progress := [];
    }

    /** The streaming loop of `download_file`: the destination is opened for
        writing (truncated), every chunk is appended, and with a callback each
        chunk is followed by a notification carrying the running count. */
    method StreamToFile(dest: Path, chunks: seq<Chunk>, notify: bool, total: int)
      modifies this`files, this`progress
      ensures files == old(files)[dest := Body(chunks)]
      ensures progress == old(progress) + (if notify then ProgressEvents(chunks, BaseName(dest), total) else [])
    {
      var name := BaseName(dest);
      var downloaded := 0;
      ghost var written: seq<byte> := [];
      files := files[dest := []];
      for i := 0 to |chunks|
        invariant written == Body(chunks[..i]) && files == old(files)[dest := written]
        invariant downloaded == Received(chunks[..i])
        invariant notify ==> progress == old(progress) + ProgressEvents(chunks[..i], name, total)
        invariant !notify ==> progress == old(progress)
      {
        PrefixStep(chunks, i, name, total);
        assert files[dest] == written;
        files := files[dest := files[dest] + chunks[i].data];
        written := written + chunks[i].data;
        downloaded := downloaded + |chunks[i].data|;
        if notify {
          progress := progress + [Progress(name, downloaded, total)];
        }
      }
      assert chunks[..|chunks|] == chunks;
    }

    /** `download_file`. Acquiring the semaphore returns only when a slot is
        free, so a manager created with no slot never gets past it; the slot
        is given back on every exit, exceptions included. `notify` says
        whether a progress callback was passed. */
    method DownloadFile(task: Task, notify: bool, net: string -> Reply, digest: seq<byte> -> string)
      returns (r: Outcome)
      requires Valid()
      modifies this
      ensures Valid() && slots == old(slots)
      ensures slots == 0 ==> r == Blocked && files == old(files) && progress == old(progress)
      ensures slots > 0 ==> r == FetchOutcome(task, net, digest) && files == AfterFetch(old(files), task, net)
      ensures slots > 0 && Accepted(task, net).Some? && notify ==>
        progress == old(progress) + ProgressEvents(Accepted(task, net).value.chunks, BaseName(task.dest),
                                                   Accepted(task, net).value.contentLength)
      ensures !(slots > 0 && Accepted(task, net).Some? && notify) ==> progress == old(progress)
    {
      if slots == 0 {
        return Blocked;
      }
      slots := slots - 1;
      if task.url.None? {
        r := Raised(TypeError("URL is None"));
      } else {
        var reply := net(task.url.value);
        if reply.Unreachable? {
          r := Raised(NetworkFailure);
        } else if reply.resp.status >= 400 {
          r := Raised(HttpStatus(reply.resp.status));
        } else {
          StreamToFile(task.dest, reply.resp.chunks, notify, reply.resp.contentLength);
          if reply.resp.interrupted {
            r := Raised(NetworkFailure);
          } else if Truthy(task.sha1) {
            var verified := VerifySha1(files, task.dest, task.sha1.value, digest);
            r := Returned(verified.Ok? && verified.value);
          } else {
            r := Returned(true);
          }
        }
      }
      slots := slots + 1;
    }

    /** `asyncio.gather(*tasks, return_exceptions=True)`: one slot per task, in
        task order, each holding that task's own outcome. */
    method Gather(tasks: seq<Task>, net: string -> Reply, digest: seq<byte> -> string)
      returns (results: seq<Outcome>)
      requires Valid()
      modifies this
      ensures Valid() && slots == old(slots) && progress == old(progress)
      ensures |results| == |tasks|
      ensures slots == 0 ==> files == old(files) && forall k :: 0 <= k < |tasks| ==> results[k] == Blocked
      ensures slots > 0 ==> forall k :: 0 <= k < |tasks| ==> results[k] == FetchOutcome(tasks[k], net, digest)
      ensures slots > 0 ==> files == AfterAll(old(files), tasks, net)
    {
      results := [];
      for i := 0 to |tasks|
        invariant Valid() && slots == old(slots) && progress == old(progress)
        invariant |results| == i
        invariant slots == 0 ==> files == old(files) && forall k :: 0 <= k < i ==> results[k] == Blocked
        invariant slots > 0 ==> forall k :: 0 <= k < i ==> results[k] == FetchOutcome(tasks[k], net, digest)
        invariant slots > 0 ==> files == AfterAll(old(files), tasks[..i], net)
      {
        assert tasks[..i + 1][..i] == tasks[..i];
        var outcome := DownloadFile(tasks[i], false, net, digest);
        results := results + [outcome];
      }
      assert tasks[..|tasks|] == tasks;
    }

    /** `download_libraries`: the task list is built first (raising, before
        anything is fetched, if an artifact has no path), then gathered. */
    method DownloadLibraries(libs: seq<Library>, net: string -> Reply, digest: seq<byte> -> string)
      returns (r: Result<seq<Outcome>, Error>)
      requires Valid()
      modifies this
      ensures Valid() && slots == old(slots) && progress == old(progress)
      ensures LibraryTasks(root, Artifacts(libs)).Err? ==>
        r == Err(LibraryTasks(root, Artifacts(libs)).error) && files == old(files)
      ensures LibraryTasks(root, Artifacts(libs)).Ok? ==> r.Ok? && |r.value| == |LibraryTasks(root, Artifacts(libs)).value|
      ensures LibraryTasks(root, Artifacts(libs)).Ok? && slots == 0 ==>
        files == old(files) && forall k :: 0 <= k < |r.value| ==> r.value[k] == Blocked
      ensures LibraryTasks(root, Artifacts(libs)).Ok? && slots > 0 ==>
        forall k :: 0 <= k < |r.value| ==> r.value[k] == FetchOutcome(LibraryTasks(root, Artifacts(libs)).value[k], net, digest)
      ensures LibraryTasks(root, Artifacts(libs)).Ok? && slots > 0 ==>
        files == AfterAll(old(files), LibraryTasks(root, Artifacts(libs)).value, net)
    {
      var plan := PlanLibraryTasks(root, libs);
      if plan.Err? {
        return Err(plan.error);
      }
      var results := Gather(plan.value, net, digest);
      return Ok(results);
    }

    /** `download_assets`: one task per object of the index, in index order. */
    method DownloadAssets(index: AssetIndex, net: string -> Reply, digest: seq<byte> -> string)
      returns (results: seq<Outcome>)
      requires Valid()
      modifies this
      ensures Valid() && slots == old(slots) && progress == old(progress)
      ensures |results| == |IndexObjects(index)|
      ensures slots == 0 ==> files == old(files) && forall k :: 0 <= k < |results| ==> results[k] == Blocked
      ensures slots > 0 ==> forall k :: 0 <= k < |results| ==>
        results[k] == FetchOutcome(AssetTask(root, IndexObjects(index)[k].1.hash), net, digest)
      ensures slots > 0 ==> files == AfterAll(old(files), AssetTasks(root, IndexObjects(index)), net)
    {
      var objects := IndexObjects(index);
      var tasks: seq<Task> := [];
      for i := 0 to |objects|
        invariant |tasks| == i
        invariant forall k :: 0 <= k < i ==> tasks[k] == AssetTask(root, objects[k].1.hash)
      {
        var hash := objects[i].1.hash;
        tasks := tasks + [AssetTask(root, hash)];
      }
      assert tasks == AssetTasks(root, objects);
      results := Gather(tasks, net, digest);
    }

    /** `download_version_jar`, with the client entry read as the dict it is. */
    method DownloadVersionJar(metadata: VersionMetadata, notify: bool, net: string -> Reply, digest: seq<byte> -> string)
      returns (r: Outcome)
      requires Valid()
      modifies this
      ensures Valid() && slots == old(slots)
      ensures slots == 0 ==> r == Blocked && files == old(files)
      ensures slots > 0 ==> r == JarOutcome(JarTask(root, metadata).0, JarTask(root, metadata).1, net, digest)
      ensures slots > 0 ==> files == AfterFetch(old(files), JarTask(root, metadata).0, net)
    {
      var (task, fallback) := JarTask(root, metadata);
      var outcome := DownloadFile(task, notify, net, digest);
      if fallback && outcome.Raised? {
        return Returned(false);
      }
      return outcome;
    }

    /** `download_asset_index`: nothing for absent or empty `assets`, the empty
        index for a legacy string, otherwise the parsed download when it
        succeeded and nothing when its hash check failed; a raised download
        propagates, and a download that never completes leaves the call
        waiting. */
    method DownloadAssetIndex(metadata: VersionMetadata, notify: bool, net: string -> Reply,
                              digest: seq<byte> -> string, parse: seq<byte> -> AssetIndex)
      returns (r: Awaited<Result<Option<AssetIndex>, Error>>)
      requires Valid()
      modifies this
      ensures Valid() && slots == old(slots)
      ensures AssetIndexPlan(root, metadata) == NoIndex ==> r == Done(Ok(None)) && files == old(files)
      ensures AssetIndexPlan(root, metadata) == EmptyIndex ==> r == Done(Ok(Some(AssetIndex(None)))) && files == old(files)
      ensures AssetIndexPlan(root, metadata).FetchIndex? && slots == 0 ==> r == NeverDone && files == old(files)
      ensures AssetIndexPlan(root, metadata).FetchIndex? && slots > 0 ==>
        var task := AssetIndexPlan(root, metadata).task;
        files == AfterFetch(old(files), task, net) &&
        match FetchOutcome(task, net, digest)
        case Raised(e) => r == Done(Err(e))
        case Returned(ok) =>
          (ok ==> task.dest in files && r == Done(Ok(Some(parse(files[task.dest]))))) &&
          (!ok ==> r == Done(Ok(None)))
        case Blocked => false
    {
      var plan := AssetIndexPlan(root, metadata);
      match plan
      case NoIndex => return Done(Ok(None));
      case EmptyIndex => return Done(Ok(Some(AssetIndex(None))));
      case FetchIndex(task) =>
        var outcome := DownloadFile(task, notify, net, digest);
        if outcome.Blocked? {
          return NeverDone;
        }
        if outcome.Raised? {
          return Done(Err(outcome.error));
        }
        if outcome.ok {
          return Done(Ok(Some(parse(files[task.dest]))));
        }
        return Done(Ok(None));
    }
  }

  /** The loop of `download_libraries` that builds the task list: libraries
      without `downloads.artifact` are skipped; the first artifact without a
      path raises. */
  method PlanLibraryTasks(root: Path, libs: seq<Library>) returns (r: Result<seq<Task>, Error>)
    ensures r == LibraryTasks(root, Artifacts(libs))
  {
    var tasks: seq<Task> := [];
    ghost var arts: seq<LibraryArtifact> := [];
    for i := 0 to |libs|
      invariant arts + Artifacts(libs[i..]) == Artifacts(libs)
      invariant LibraryTasks(root, arts) == Ok(tasks)
    {
      ArtifactsStep(libs, i);
      var found := ArtifactOf(libs[i]);
      if found.None? {
        continue;
      }
      var artifact := found.value;
      var task := LibraryTask(root, artifact);
      LibraryTasksSnoc(root, arts, artifact);
      assert arts + ([artifact] + Artifacts(libs[i + 1..])) == (arts + [artifact]) + Artifacts(libs[i + 1..]);
      if task.Err? {
        LibraryTasksErrPrefix(root, arts + [artifact], Artifacts(libs[i + 1..]));
        assert LibraryTasks(root, Artifacts(libs)) == Err(task.error);
        return Err(task.error);
      }
      arts := arts + [artifact];
      tasks := tasks + [task.value];
    }
    assert libs[|libs|..] == [] && arts + [] == arts;
    return Ok(tasks);
  }

  /** One step of `Artifacts` at position `i`. */
  lemma ArtifactsStep(libs: seq<Library>, i: int)
    requires 0 <= i < |libs|
    ensures Artifacts(libs[i..]) ==
      (if ArtifactOf(libs[i]).Some? then [ArtifactOf(libs[i]).value] else []) + Artifacts(libs[i + 1..])
  {
    assert libs[i..][1..] == libs[i + 1..];
  }

  /** Appending one artifact to the planned list appends its task, or fails with its error. */
  lemma {:induction false} LibraryTasksSnoc(root: Path, arts: seq<LibraryArtifact>, a: LibraryArtifact)
    requires LibraryTasks(root, arts).Ok?
    ensures LibraryTask(root, a).Ok? ==>
      LibraryTasks(root, arts + [a]) == Ok(LibraryTasks(root, arts).value + [LibraryTask(root, a).value])
    ensures LibraryTask(root, a).Err? ==> LibraryTasks(root, arts + [a]) == Err(LibraryTask(root, a).error)
    decreases |arts|
  {
    if arts == [] {
      assert arts + [a] == [a];
      assert [a][1..] == [];
      assert LibraryTasks(root, [a][1..]) == Ok([]);
      assert LibraryTasks(root, arts).value == [];
      if LibraryTask(root, a).Ok? {
        var t := LibraryTask(root, a).value;
        assert LibraryTasks(root, [a]) == Ok([t] + []);
        assert [t] + [] == [] + [t];
      }
    } else {
      assert (arts + [a])[0] == arts[0];
      assert (arts + [a])[1..] == arts[1..] + [a];
      LibraryTasksSnoc(root, arts[1..], a);
      var t0 := LibraryTask(root, arts[0]).value;
      var mid := LibraryTasks(root, arts[1..]).value;
      assert LibraryTasks(root, arts).value == [t0] + mid;
      if LibraryTask(root, a).Ok? {
        assert [t0] + (mid + [LibraryTask(root, a).value]) == [t0] + mid + [LibraryTask(root, a).value];
      }
    }
  }

  /** Once a prefix fails to plan, the whole list fails with the same error. */
  lemma {:induction false} LibraryTasksErrPrefix(root: Path, pre: seq<LibraryArtifact>, post: seq<LibraryArtifact>)
    requires LibraryTasks(root, pre).Err?
    ensures LibraryTasks(root, pre + post) == LibraryTasks(root, pre)
    decreases |pre|
  {
    assert pre != [];
    assert (pre + post)[0] == pre[0];
    assert (pre + post)[1..] == pre[1..] + post;
    if LibraryTask(root, pre[0]).Ok? {
      LibraryTasksErrPrefix(root, pre[1..], post);
    }
  }
}
