/** lib.go: the first version of the library, kept in the root package. Its
    `ParseS3URI` does not check the remote path, `doUpload` builds its key
    with `fmt.Sprintf`, `UploadObjects` names every walked file by its
    whole path, and `DownloadObjects` copies every listed key, directory
    markers included, logging whatever fails and returning nil. The file
    system and the object store appear only as the answers they give, as
    in the rest of the model. */
module LegacyLib {
  import opened Types
  import opened GoStrings
  import opened GoPath
  import Common
  import Upload
  import Download

  // ---------------------------------------------------------------------
  // ParseS3URI

  /** `ParseS3URI`, after `url.Parse` has produced `uri` (or failed): the
      scheme check and the leading-character strip, and nothing else. */
  function ParseS3URI(uri: Result<Url>): Result<S3Location> {
    match uri
    case Err(e) => Err(e)
    case Ok(u) =>
      if ToLower(u.scheme) != "s3" then Err(InvalidScheme(u.scheme))
      else Ok(S3Location(u.host, Common.RemotePathOf(u.path)))
  }

  /** The parser succeeds exactly for a parsed URI with scheme "s3" or
      "S3", and then yields the host and the path without its first
      character, whatever that path holds. */
  lemma ParseS3URISpec(uri: Result<Url>)
    ensures ParseS3URI(uri).Ok? <==> uri.Ok? && (uri.value.scheme == "s3" || uri.value.scheme == "S3")
    ensures ParseS3URI(uri).Ok? ==>
              ParseS3URI(uri).value == S3Location(uri.value.host, Common.RemotePathOf(uri.value.path))
    ensures uri.Err? ==> ParseS3URI(uri) == Err(uri.error)
    ensures uri.Ok? && uri.value.scheme != "s3" && uri.value.scheme != "S3" ==>
              ParseS3URI(uri) == Err(InvalidScheme(uri.value.scheme))
  {
    if uri.Ok? {
      ToLowerS3(uri.value.scheme);
    }
  }

  /** The parser of pkg/common.go is this one with the string checks added:
      it agrees wherever the remote path passes them, and refuses the
      remote path otherwise. */
  lemma ValidationAdded(uri: Result<Url>)
    ensures ParseS3URI(uri).Err? ==> Common.ParseS3URI(uri) == ParseS3URI(uri)
    ensures ParseS3URI(uri).Ok? && Common.PassesStringChecks(ParseS3URI(uri).value.remotePath) ==>
              Common.ParseS3URI(uri) == ParseS3URI(uri)
    ensures ParseS3URI(uri).Ok? && !Common.PassesStringChecks(ParseS3URI(uri).value.remotePath) ==>
              var rp := ParseS3URI(uri).value.remotePath;
              Common.ParseS3URI(uri) == Err(InvalidRemotePath(Common.ValidatePath(rp, "", false, "/").value))
  {
    if ParseS3URI(uri).Ok? {
      Common.ValidateEmptyBase(ParseS3URI(uri).value.remotePath, "/", "/");
    }
  }

  // ---------------------------------------------------------------------
  // doUpload and UploadObjects

  /** The key `doUpload` writes to: `fmt.Sprintf("%s/%s", remoteDirPath,
      name)` under a non-empty remote directory, `name` otherwise. */
  function UploadKey(remoteDirPath: string, name: string): string {
    if |remoteDirPath| > 0 then remoteDirPath + "/" + name else name
  }

  /** The key keeps both parts as they are, the remote directory and one
      '/' in front and `name` behind it; the key of pkg/upload.go is this
      key cleaned. */
  lemma UploadKeySpec(remoteDirPath: string, name: string)
    ensures remoteDirPath == "" ==> UploadKey(remoteDirPath, name) == name
    ensures remoteDirPath != "" ==>
              var k, n := UploadKey(remoteDirPath, name), |remoteDirPath| + 1;
              n <= |k| && k[..n] == remoteDirPath + "/" && Drop(k, n) == name
    ensures remoteDirPath == "" ==> Upload.UploadKey(remoteDirPath, name) == UploadKey(remoteDirPath, name)
    ensures remoteDirPath != "" ==> Upload.UploadKey(remoteDirPath, name) == Clean(UploadKey(remoteDirPath, name))
  {
    if remoteDirPath != "" {
      var k, n := UploadKey(remoteDirPath, name), |remoteDirPath| + 1;
      assert k[..n] == remoteDirPath + "/";
      DropAfterTake(k, n, name);
      Upload.UploadKeySpec(remoteDirPath, name);
    }
  }

  /** The put a `doUpload` call makes. */
  function Request(t: Upload.UploadTask): Upload.PutRequest {
    Upload.PutRequest(t.bucket, UploadKey(t.remoteDirPath, t.name), t.localFile)
  }

  /** The walk callback of `UploadObjects`, replayed over the entries
      visited: an error entry ends the walk with that error; a file is
      uploaded with its whole walked path as its name; a directory is
      passed over. */
  function WalkUploads(walk: seq<WalkEntry>, remoteDirPath: string, bucket: string)
    : (Option<Error>, seq<Upload.UploadTask>)
    decreases |walk|
  {
    if walk == [] then (None, [])
    else
      var (err, tasks) := WalkUploads(walk[..|walk| - 1], remoteDirPath, bucket);
      if err.Some? then (err, tasks)
      else match walk[|walk| - 1]
        case WalkError(e) => (Some(e), tasks)
        case Entry(p, isDir) =>
          if isDir then (None, tasks)
          else (None, tasks + [Upload.UploadTask(p, p, remoteDirPath, bucket)])
  }

  /** The walk uploads what the walk of pkg/upload.go queues when no prefix
      is cut off the walked paths. */
  lemma {:induction false} WalkUploadsFullPaths(walk: seq<WalkEntry>, remoteDirPath: string, bucket: string)
    ensures WalkUploads(walk, remoteDirPath, bucket) == Upload.WalkTasks(walk, 0, remoteDirPath, bucket)
    decreases |walk|
  {
    if walk != [] {
      WalkUploadsFullPaths(walk[..|walk| - 1], remoteDirPath, bucket);
      if walk[|walk| - 1].Entry? {
        DropZero(walk[|walk| - 1].path);
      }
    }
  }

  /** `UploadObjects`: the error it returns and the `doUpload` calls it
      makes. A file is uploaded under the name `os.Stat` reports and the
      upload's error is returned; a directory's uploads only print their
      errors, and the walk's own error is returned. */
  function UploadObjectsPlan(localPath: string, remoteDirPath: string, bucket: string, stat: Stat,
                             walk: seq<WalkEntry>, send: Upload.PutRequest -> Upload.Send)
    : (Option<Error>, seq<Upload.UploadTask>)
  {
    match stat
    case StatFailed(e) => (Some(e), [])
    case Exists(isDir) =>
      if isDir then WalkUploads(walk, remoteDirPath, bucket)
      else
        var t := Upload.UploadTask(localPath, Upload.FileName(localPath), remoteDirPath, bucket);
        (Upload.DoUpload(send(Request(t))), [t])
  }

  /** A file without a trailing '/' is uploaded once, under its base name,
      and the result is that upload's error. */
  lemma FileUpload(localPath: string, remoteDirPath: string, bucket: string, walk: seq<WalkEntry>,
                   send: Upload.PutRequest -> Upload.Send)
    requires !HasSuffix(localPath, "/")
    ensures var name := SplitPath(localPath).1;
            var put := Upload.PutRequest(bucket, UploadKey(remoteDirPath, name), localPath);
            UploadObjectsPlan(localPath, remoteDirPath, bucket, Exists(false), walk, send) ==
              (Upload.DoUpload(send(put)), [Upload.UploadTask(localPath, name, remoteDirPath, bucket)])
  {
    Upload.FileNameSplit(localPath);
  }

  /** A directory is uploaded file by file until the first walk error, each
      file under its whole walked path; the result is that walk error or
      nil, whatever the uploads report. */
  lemma DirectoryUploads(localPath: string, remoteDirPath: string, bucket: string, walk: seq<WalkEntry>,
                         send: Upload.PutRequest -> Upload.Send, send': Upload.PutRequest -> Upload.Send)
    ensures var i := Upload.FirstWalkError(walk);
            var r := UploadObjectsPlan(localPath, remoteDirPath, bucket, Exists(true), walk, send);
            r == UploadObjectsPlan(localPath, remoteDirPath, bucket, Exists(true), walk, send') &&
            (i < 0 ==> r == (None, Upload.FileTasks(walk, 0, remoteDirPath, bucket))) &&
            (i >= 0 ==> r == (Some(walk[i].error), Upload.FileTasks(walk[..i], 0, remoteDirPath, bucket))) &&
            (forall t :: t in r.1 ==> t.name == t.localFile)
  {
    WalkUploadsFullPaths(walk, remoteDirPath, bucket);
    Upload.WalkSpec(walk, 0, remoteDirPath, bucket);
    Upload.WalkTasksFrom(walk, 0, remoteDirPath, bucket);
    forall t | t in WalkUploads(walk, remoteDirPath, bucket).1
      ensures t.name == t.localFile
    {
      DropZero(t.localFile);
    }
  }

  /** `UploadObjects`, the walk replayed sequentially: returns the error
      and the `doUpload` calls made, in order. */
  method UploadObjects(localPath: string, remoteDirPath: string, bucket: string, stat: Stat,
                       walk: seq<WalkEntry>, send: Upload.PutRequest -> Upload.Send)
    returns (err: Option<Error>, uploads: seq<Upload.UploadTask>)
    ensures (err, uploads) == UploadObjectsPlan(localPath, remoteDirPath, bucket, stat, walk, send)
  {
    if stat.StatFailed? {
      return Some(stat.error), [];
    }
    if !stat.isDir {
      var t := Upload.UploadTask(localPath, Upload.FileName(localPath), remoteDirPath, bucket);
      return Upload.DoUpload(send(Request(t))), [t];
    }
    uploads := [];
    var i := 0;
    while i < |walk|
      invariant 0 <= i <= |walk|
      invariant WalkUploads(walk[..i], remoteDirPath, bucket) == (None, uploads)
    {
      assert walk[..i + 1][..i] == walk[..i];
      match walk[i] {
        case WalkError(e) =>
          WalkUploadsSticky(walk, remoteDirPath, bucket, i + 1);
          return Some(e), uploads;
        case Entry(p, isDir) =>
          if !isDir {
            var t := Upload.UploadTask(p, p, remoteDirPath, bucket);
            var printed := Upload.DoUpload(send(Request(t)));
            uploads := uploads + [t];
          }
      }
      i := i + 1;
    }
    assert walk[..i] == walk;
    err := None;
  }

  /** Once an error has ended the walk, later entries change nothing. */
  lemma {:induction false} WalkUploadsSticky(walk: seq<WalkEntry>, remoteDirPath: string, bucket: string, i: nat)
    requires i <= |walk|
    requires WalkUploads(walk[..i], remoteDirPath, bucket).0.Some?
    ensures WalkUploads(walk, remoteDirPath, bucket) == WalkUploads(walk[..i], remoteDirPath, bucket)
    decreases |walk| - i
  {
    if i < |walk| {
      var ws := walk[..|walk| - 1];
      assert ws[..i] == walk[..i];
      WalkUploadsSticky(ws, remoteDirPath, bucket, i);
    } else {
      assert walk[..i] == walk;
    }
  }

  // ---------------------------------------------------------------------
  // DownloadObjects

  /** The last field of `strings.Split(s, "/")`. */
  function LastField(s: string): string {
    var splt := SplitSlash(s);
    splt[|splt| - 1]
  }

  /** The last field is the base name `path.Split` gives, and is empty for
      a path ending in '/'. */
  lemma LastFieldSpec(s: string)
    ensures LastField(s) == SplitPath(s).1
    ensures HasSuffix(s, "/") ==> LastField(s) == ""
  {
    var i := LastSlash(s);
    LastSlashSpec(s);
    if i < 0 {
      SplitSingle(s);
      DropZero(s);
    } else {
      var a, b := s[..i], s[i + 1..];
      assert s == a + "/" + b;
      SplitConcat(a, b);
      SplitSingle(b);
      DropSlice(s, i + 1);
    }
    SlashSuffix(s);
  }

  /** The copy made for one listed key: the key's directory `path.Join`ed
      under `localPath`, and the key's base name in that directory. */
  function KeyTask(bucket: string, localPath: string, key: string): Download.DownloadTask {
    var (dir, file) := SplitPath(key);
    var dirPath := Join(localPath, dir);
    Download.RecursiveGet(bucket, key, dirPath, Join(dirPath, file))
  }

  /** The copy of each listed key, as the loop makes it. */
  function KeyCopies(bucket: string, localPath: string): string -> Download.DownloadTask {
    key => KeyTask(bucket, localPath, key)
  }

  /** The copies made for the listed keys, in listing order. */
  function Copies(keys: seq<string>, task: string -> Download.DownloadTask): seq<Download.DownloadTask>
    decreases |keys|
  {
    if keys == [] then []
    else Copies(keys[..|keys| - 1], task) + [task(keys[|keys| - 1])]
  }

  /** One copy per listed key, each for the key at its position. */
  lemma {:induction false} CopiesSpec(keys: seq<string>, task: string -> Download.DownloadTask)
    ensures |Copies(keys, task)| == |keys|
    ensures forall i :: 0 <= i < |keys| ==> Copies(keys, task)[i] == task(keys[i])
    decreases |keys|
  {
    if keys != [] {
      var ks := keys[..|keys| - 1];
      CopiesSpec(ks, task);
      assert forall i :: 0 <= i < |ks| ==> ks[i] == keys[i];
    }
  }

  /** A key's copy is the one pkg/download.go queues when no prefix is cut
      off the key's directory. */
  lemma KeyTaskCurrent(bucket: string, localPath: string, key: string)
    ensures KeyTask(bucket, localPath, key) == Download.KeyTask(bucket, localPath, 0, key)
  {
    DropZero(SplitPath(key).0);
  }

  /** A directory marker is not skipped: its copy targets the very
      directory it has just made. */
  lemma MarkerTargetsItsDirectory(bucket: string, localPath: string, key: string)
    requires Download.IsMarker(key)
    ensures KeyTask(bucket, localPath, key).filePath == KeyTask(bucket, localPath, key).dirPath
  {
    var (dir, file) := SplitPath(key);
    SplitPathSpec(key);
    SlashSuffix(key);
    LastSlashSpec(key);
    assert LastSlash(key) == |key| - 1;
    assert file == "";
    assert dir != "";
    var q := if localPath == "" then dir else localPath + "/" + dir;
    assert Join(localPath, dir) == Clean(q);
    CleanResolved(q);
  }

  /** The object a copy fetches and the file it writes. */
  function GetOf(t: Download.DownloadTask): Download.GetRequest {
    match t
    case RecursiveGet(bucket, key, _, filePath) => Download.GetRequest(bucket, key, "", filePath)
    case SingleGet(bucket, remotePath, destPath, versionId) => Download.GetRequest(bucket, remotePath, versionId, destPath)
  }

  /** Where the copy writes. */
  function Target(t: Download.DownloadTask): string {
    if t.RecursiveGet? then t.filePath else t.destPath
  }

  /** The copy of the non-recursive branch: the object goes into
      `localPath` under the last field of `remotePath` when `localPath` is
      an existing directory, otherwise to `localPath` itself. */
  function SingleTask(localPath: string, remotePath: string, bucket: string, stat: Stat): Download.DownloadTask {
    Download.SingleGet(bucket, remotePath, Download.SingleDest(localPath, LastField(remotePath), stat), "")
  }

  /** `DownloadObjects`: the error it returns and the copies it makes. */
  function DownloadPlan(localPath: string, remotePath: string, bucket: string, recursive: bool, stat: Stat,
                        listing: Result<seq<string>>, fetch: Download.GetRequest -> Download.Fetch)
    : (Option<Error>, seq<Download.DownloadTask>)
  {
    if recursive then
      if stat.Exists? && !stat.isDir then (Some(IsAFile(localPath)), [])
      else if listing.Err? then (Some(listing.error), [])
      else (None, Copies(listing.value, KeyCopies(bucket, localPath)))
    else
      var t := SingleTask(localPath, remotePath, bucket, stat);
      (Download.DoDownload(fetch(GetOf(t))).0, [t])
  }

  /** The local files the copies write, in order: a copy writes its file
      once the get and the create have succeeded. */
  function Written(tasks: seq<Download.DownloadTask>, fetch: Download.GetRequest -> Download.Fetch): seq<string>
    decreases |tasks|
  {
    if tasks == [] then []
    else
      var t := tasks[|tasks| - 1];
      Written(tasks[..|tasks| - 1], fetch) + (if Download.DoDownload(fetch(GetOf(t))).1 then [Target(t)] else [])
  }

  /** What the recursive loop logs, in order: for each copy, the failure of
      its `os.MkdirAll` and then the failure of its download. */
  function Logged(tasks: seq<Download.DownloadTask>, mkdir: string -> Option<Error>,
                  fetch: Download.GetRequest -> Download.Fetch): seq<Error>
    decreases |tasks|
  {
    if tasks == [] then []
    else
      var t := tasks[|tasks| - 1];
      Logged(tasks[..|tasks| - 1], mkdir, fetch) +
        (if t.RecursiveGet? then Errs(mkdir(t.dirPath)) else []) + Errs(Download.DoDownload(fetch(GetOf(t))).0)
  }

  /** Every written file is the target of a copy whose get and create
      succeeded; a get that fails writes nothing. When every get and create
      succeeds, every target is written. */
  lemma {:induction false} WrittenSpec(tasks: seq<Download.DownloadTask>, fetch: Download.GetRequest -> Download.Fetch)
    ensures forall f :: f in Written(tasks, fetch) ==>
              exists i :: 0 <= i < |tasks| && f == Target(tasks[i]) &&
                          fetch(GetOf(tasks[i])).get == None && fetch(GetOf(tasks[i])).create == None
    ensures (forall i :: 0 <= i < |tasks| ==> fetch(GetOf(tasks[i])).get == None && fetch(GetOf(tasks[i])).create == None) ==>
              |Written(tasks, fetch)| == |tasks| &&
              forall i :: 0 <= i < |tasks| ==> Written(tasks, fetch)[i] == Target(tasks[i])
    decreases |tasks|
  {
    if tasks != [] {
      var n := |tasks| - 1;
      var ts := tasks[..n];
      WrittenSpec(ts, fetch);
      assert forall i :: 0 <= i < n ==> ts[i] == tasks[i];
    }
  }

  /** Nothing is logged exactly when every directory was made and every
      copy succeeded. */
  lemma {:induction false} LoggedSpec(tasks: seq<Download.DownloadTask>, mkdir: string -> Option<Error>,
                                      fetch: Download.GetRequest -> Download.Fetch)
    requires forall i :: 0 <= i < |tasks| ==> tasks[i].RecursiveGet?
    ensures Logged(tasks, mkdir, fetch) == [] <==>
              forall i :: 0 <= i < |tasks| ==>
                mkdir(tasks[i].dirPath) == None && Download.DoDownload(fetch(GetOf(tasks[i]))).0 == None
    decreases |tasks|
  {
    if tasks != [] {
      var n := |tasks| - 1;
      var ts := tasks[..n];
      LoggedSpec(ts, mkdir, fetch);
      assert forall i :: 0 <= i < n ==> ts[i] == tasks[i];
    }
  }

  /** The recursive branch fails only for a local path that is an existing
      file or a failed listing; otherwise it returns nil, whatever the
      copies do, after one copy per listed key, markers included. */
  lemma RecursiveDownloads(localPath: string, remotePath: string, bucket: string, stat: Stat,
                           listing: Result<seq<string>>, fetch: Download.GetRequest -> Download.Fetch,
                           fetch': Download.GetRequest -> Download.Fetch)
    ensures var r := DownloadPlan(localPath, remotePath, bucket, true, stat, listing, fetch);
            r == DownloadPlan(localPath, remotePath, bucket, true, stat, listing, fetch') &&
            (r.0 == None <==> !(stat.Exists? && !stat.isDir) && listing.Ok?) &&
            (stat == Exists(false) ==> r == (Some(IsAFile(localPath)), [])) &&
            (r.0 == None ==> |r.1| == |listing.value| &&
                             forall i :: 0 <= i < |r.1| ==> r.1[i] == KeyTask(bucket, localPath, listing.value[i]))
  {
    if listing.Ok? {
      CopiesSpec(listing.value, KeyCopies(bucket, localPath));
    }
  }

  /** The non-recursive branch makes the one copy of `remotePath`, into
      `localPath` under the base name when `localPath` is a directory and
      to `localPath` otherwise, and returns its error; a remote path ending
      in '/' gives an empty name, so the copy goes to the directory itself. */
  lemma SingleDownload(localPath: string, remotePath: string, bucket: string, stat: Stat,
                       listing: Result<seq<string>>, fetch: Download.GetRequest -> Download.Fetch)
    ensures var dest := if stat.Exists? && stat.isDir then Join(localPath, SplitPath(remotePath).1) else localPath;
            DownloadPlan(localPath, remotePath, bucket, false, stat, listing, fetch) ==
              (Download.DoDownload(fetch(Download.GetRequest(bucket, remotePath, "", dest))).0,
               [Download.SingleGet(bucket, remotePath, dest, "")])
    ensures HasSuffix(remotePath, "/") && stat == Exists(true) ==>
              DownloadPlan(localPath, remotePath, bucket, false, stat, listing, fetch).1 ==
                [Download.SingleGet(bucket, remotePath, Join(localPath, ""), "")]
  {
    LastFieldSpec(remotePath);
  }

  /** `DownloadObjects`, with the listing, the `os.MkdirAll` results and the
      object store's answers given: returns the error, the copies made, the
      files written and what was logged. */
  method DownloadObjects(localPath: string, remotePath: string, bucket: string, recursive: bool, stat: Stat,
                         listing: Result<seq<string>>, mkdir: string -> Option<Error>,
                         fetch: Download.GetRequest -> Download.Fetch)
    returns (err: Option<Error>, tasks: seq<Download.DownloadTask>, written: seq<string>, logged: seq<Error>)
    ensures (err, tasks) == DownloadPlan(localPath, remotePath, bucket, recursive, stat, listing, fetch)
    ensures written == Written(tasks, fetch)
    ensures logged == if recursive then Logged(tasks, mkdir, fetch) else []
  {
    if !recursive {
      err, tasks, written := DownloadSingle(localPath, remotePath, bucket, stat, fetch);
      return err, tasks, written, [];
    }
    if stat.Exists? && !stat.isDir {
      return Some(IsAFile(localPath)), [], [], [];
    }
    if listing.Err? {
      return Some(listing.error), [], [], [];
    }
    tasks, written, logged := CopyKeys(listing.value, KeyCopies(bucket, localPath), mkdir, fetch);
    err := None;
  }

  /** One more copy adds its own written file and log entries at the end. */
  lemma CopySnoc(tasks: seq<Download.DownloadTask>, t: Download.DownloadTask, mkdir: string -> Option<Error>,
                 fetch: Download.GetRequest -> Download.Fetch)
    ensures var r := Download.DoDownload(fetch(GetOf(t)));
            Written(tasks + [t], fetch) == Written(tasks, fetch) + (if r.1 then [Target(t)] else []) &&
            Logged(tasks + [t], mkdir, fetch) ==
              Logged(tasks, mkdir, fetch) + (if t.RecursiveGet? then Errs(mkdir(t.dirPath)) else []) + Errs(r.0)
  {
    assert (tasks + [t])[..|tasks|] == tasks;
  }

  /** The loop over the listed keys: each key's directory is made, then
      its object copied, and a failure of either is only logged. */
  method CopyKeys(keys: seq<string>, task: string -> Download.DownloadTask, mkdir: string -> Option<Error>,
                  fetch: Download.GetRequest -> Download.Fetch)
    returns (tasks: seq<Download.DownloadTask>, written: seq<string>, logged: seq<Error>)
    ensures tasks == Copies(keys, task)
    ensures written == Written(tasks, fetch) && logged == Logged(tasks, mkdir, fetch)
  {
    tasks, written, logged := [], [], [];
    var i := 0;
    while i < |keys|
      invariant 0 <= i <= |keys|
      invariant tasks == Copies(keys[..i], task)
      invariant written == Written(tasks, fetch) && logged == Logged(tasks, mkdir, fetch)
    {
      assert keys[..i + 1][..i] == keys[..i];
      var t := task(keys[i]);
      assert Copies(keys[..i + 1], task) == tasks + [t];
      CopySnoc(tasks, t, mkdir, fetch);
      if t.RecursiveGet? {
        logged := logged + Errs(mkdir(t.dirPath));
      }
      var (e, created) := Download.DoDownload(fetch(GetOf(t)));
      logged := logged + Errs(e);
      if created {
        written := written + [Target(t)];
      }
      tasks := tasks + [t];
      i := i + 1;
    }
    assert keys[..i] == keys;
  }

  /** The non-recursive branch: one copy, whose error is returned. */
  method DownloadSingle(localPath: string, remotePath: string, bucket: string, stat: Stat,
                        fetch: Download.GetRequest -> Download.Fetch)
    returns (err: Option<Error>, tasks: seq<Download.DownloadTask>, written: seq<string>)
    ensures tasks == [SingleTask(localPath, remotePath, bucket, stat)]
    ensures err == Download.DoDownload(fetch(GetOf(tasks[0]))).0 && written == Written(tasks, fetch)
  {
    var splt := SplitSlash(remotePath);
    var filename := splt[|splt| - 1];
    var destPath := if stat.Exists? && stat.isDir then Join(localPath, filename) else localPath;
    var t := Download.SingleGet(bucket, remotePath, destPath, "");
    var (e, created) := Download.DoDownload(fetch(GetOf(t)));
    err := e;
    tasks := [t];
    written := if created then [destPath] else [];
    assert tasks[..0] == [];
  }
}
