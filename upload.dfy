/** pkg/upload.go: the object key of one upload, the tasks `Submit` queues
    for a file or a walked directory tree, and the last-error slot the
    tasks write. The file system and the object store appear only as the
    answers they give: the `os.Stat` of the local path, the entries
    `filepath.WalkDir` visits, and the outcome of opening and putting each
    file. */
module Upload {
  import opened Types
  import opened GoStrings
  import opened GoPath

  // ---------------------------------------------------------------------
  // doUpload

  /** The object key `doUpload` writes to: `path.Join(remoteDirPath, name)`
      under a non-empty remote directory, `name` as it is otherwise. */
  function UploadKey(remoteDirPath: string, name: string): string {
    if |remoteDirPath| > 0 then Join(remoteDirPath, name) else name
  }

  /** Under a remote directory the key is the cleaned remote directory
      followed by the elements of `name`; without one, `name` is the key. */
  lemma UploadKeySpec(remoteDirPath: string, name: string)
    ensures remoteDirPath == "" ==> UploadKey(remoteDirPath, name) == name
    ensures remoteDirPath != "" ==>
              UploadKey(remoteDirPath, name) == Clean(remoteDirPath + "/" + name) &&
              IsRooted(UploadKey(remoteDirPath, name)) == IsRooted(remoteDirPath) &&
              Resolved(UploadKey(remoteDirPath, name)) == Fold(IsRooted(remoteDirPath), Resolved(remoteDirPath), Segs(name))
  {
    if remoteDirPath != "" {
      JoinIsClean(remoteDirPath, name);
      ResolvedJoin(remoteDirPath, name);
    }
  }

  /** One object put: what it uploads, and from where. */
  datatype PutRequest = PutRequest(bucket: string, key: string, localFile: string)

  /** What the two fallible calls of `doUpload` report: `os.Open` and `PutObject`. */
  datatype Send = Send(open: Option<Error>, put: Option<Error>)

  /** `doUpload`'s error: the open failure, else the put failure. */
  function DoUpload(s: Send): (r: Option<Error>)
    ensures r == None <==> s.open == None && s.put == None
    ensures s.open.Some? ==> r == s.open
    ensures s.open == None ==> r == s.put
  {
    if s.open.Some? then s.open else s.put
  }

  // ---------------------------------------------------------------------
  // Tasks

  /** A queued closure of `Submit`, by the arguments it passes to `doUpload`. */
  datatype UploadTask = UploadTask(localFile: string, name: string, remoteDirPath: string, bucket: string)

  /** The put a task makes. */
  function Request(t: UploadTask): PutRequest {
    PutRequest(t.bucket, UploadKey(t.remoteDirPath, t.name), t.localFile)
  }

  /** `s` without its trailing slashes, a lone "/" kept. */
  function StripSlashes(s: string): string
    decreases |s|
  {
    if |s| > 1 && s[|s| - 1] == '/' then StripSlashes(s[..|s| - 1]) else s
  }

  /** The characters of `s` after its last '/'. */
  function AfterLastSlash(s: string): string
    decreases |s|
  {
    if s == [] || s[|s| - 1] == '/' then "" else AfterLastSlash(s[..|s| - 1]) + [s[|s| - 1]]
  }

  /** The name `os.Stat` reports for a path (the `basename` of package
      `os`): trailing slashes are dropped while more than one character is
      left; then the last character is kept with whatever follows the last
      '/' before it. */
  function FileName(p: string): string {
    var s := StripSlashes(p);
    if s == [] then "" else AfterLastSlash(s[..|s| - 1]) + [s[|s| - 1]]
  }

  /** `AfterLastSlash(s)` has no '/' and is what follows the last '/' of
      `s`, or all of `s`. */
  lemma {:induction false} AfterLastSlashSpec(s: string)
    ensures s[..LastSlash(s) + 1] + AfterLastSlash(s) == s
    ensures '/' !in AfterLastSlash(s)
    decreases |s|
  {
    if s != [] && s[|s| - 1] != '/' {
      var t := s[..|s| - 1];
      AfterLastSlashSpec(t);
      assert s[..LastSlash(t) + 1] == t[..LastSlash(t) + 1];
      assert s == t + [s[|s| - 1]];
    }
  }

  /** `StripSlashes` only drops trailing slashes: it leaves a path that
      does not end in '/' alone, and ends in '/' only when one character is
      left. */
  lemma {:induction false} StripSlashesSpec(p: string)
    ensures (p == [] || p[|p| - 1] != '/') ==> StripSlashes(p) == p
    ensures var s := StripSlashes(p); |s| > 0 && s[|s| - 1] == '/' ==> |s| == 1
    decreases |p|
  {
    if |p| > 1 && p[|p| - 1] == '/' {
      StripSlashesSpec(p[..|p| - 1]);
    }
  }

  /** The reported name holds a '/' only when it is "/", which the path
      "/" (or "//"...) reports. */
  lemma FileNameSlash(p: string)
    ensures '/' in FileName(p) ==> FileName(p) == "/"
  {
    var s := StripSlashes(p);
    StripSlashesSpec(p);
    if s != [] {
      var t := s[..|s| - 1];
      AfterLastSlashSpec(t);
      var a := AfterLastSlash(t);
      assert FileName(p) == a + [s[|s| - 1]];
      if s[|s| - 1] == '/' {
        assert |s| == 1 && a == "";
      } else {
        assert forall c :: c in a + [s[|s| - 1]] ==> c in a || c == s[|s| - 1];
      }
    }
  }

  /** For a path without a trailing '/', the reported name is the base name
      `path.Split` gives. */
  lemma FileNameSplit(p: string)
    requires !HasSuffix(p, "/")
    ensures FileName(p) == SplitPath(p).1
  {
    StripSlashesSpec(p);
    if p != [] {
      SlashSuffix(p);
      assert FileName(p) == AfterLastSlash(p);
      AfterLastSlashSpec(p);
      DropAfterTake(p, LastSlash(p) + 1, AfterLastSlash(p));
    }
  }

  /** The entries `filepath.WalkDir` visits all lie under the walked root. */
  predicate WalkedUnder(root: string, walk: seq<WalkEntry>) {
    forall i :: 0 <= i < |walk| && walk[i].Entry? ==> HasPrefix(walk[i].path, root)
  }

  /** The walk callback, replayed over the entries visited: an error entry
      ends the walk with that error; a file queues its task, named by its
      path below the prefix; a directory queues nothing. */
  function WalkTasks(walk: seq<WalkEntry>, prefixLen: nat, remoteDirPath: string, bucket: string)
    : (Option<Error>, seq<UploadTask>)
    decreases |walk|
  {
    if walk == [] then (None, [])
    else
      var (err, tasks) := WalkTasks(walk[..|walk| - 1], prefixLen, remoteDirPath, bucket);
      if err.Some? then (err, tasks)
      else match walk[|walk| - 1]
        case WalkError(e) => (Some(e), tasks)
        case Entry(p, isDir) =>
          if isDir then (None, tasks)
          else (None, tasks + [UploadTask(p, Drop(p, prefixLen), remoteDirPath, bucket)])
  }

  /** One task per file entry, in walk order. */
  function FileTasks(walk: seq<WalkEntry>, prefixLen: nat, remoteDirPath: string, bucket: string): seq<UploadTask>
    decreases |walk|
  {
    if walk == [] then []
    else
      var e := walk[|walk| - 1];
      FileTasks(walk[..|walk| - 1], prefixLen, remoteDirPath, bucket) +
        (if e.Entry? && !e.isDir then [UploadTask(e.path, Drop(e.path, prefixLen), remoteDirPath, bucket)] else [])
  }

  /** The position of the first error entry, or -1. */
  function FirstWalkError(walk: seq<WalkEntry>): (i: int)
    ensures -1 <= i < |walk|
    ensures i >= 0 ==> walk[i].WalkError?
    ensures forall j :: 0 <= j < |walk| && (i < 0 || j < i) ==> walk[j].Entry?
    decreases |walk|
  {
    if walk == [] then -1
    else
      var n := |walk| - 1;
      var i := FirstWalkError(walk[..n]);
      if i >= 0 then i
      else if walk[n].WalkError? then n
      else -1
  }

  /** The walk stops at its first error, which `Submit` returns, keeping
      the tasks of the files before it; without an error every file entry
      gets a task, in walk order. */
  lemma {:induction false} WalkSpec(walk: seq<WalkEntry>, prefixLen: nat, remoteDirPath: string, bucket: string)
    ensures var i := FirstWalkError(walk);
            var r := WalkTasks(walk, prefixLen, remoteDirPath, bucket);
            (i < 0 ==> r == (None, FileTasks(walk, prefixLen, remoteDirPath, bucket))) &&
            (i >= 0 ==> r == (Some(walk[i].error), FileTasks(walk[..i], prefixLen, remoteDirPath, bucket)))
    decreases |walk|
  {
    if walk != [] {
      var n := |walk| - 1;
      var ws := walk[..n];
      WalkSpec(ws, prefixLen, remoteDirPath, bucket);
      var i := FirstWalkError(ws);
      if i >= 0 {
        assert walk[..i] == ws[..i];
      } else if walk[n].WalkError? {
        assert walk[..n] == ws;
        assert FirstWalkError(walk) == n;
      } else {
        var e := walk[n];
        assert FirstWalkError(walk) == -1;
        if e.isDir {
          assert FileTasks(walk, prefixLen, remoteDirPath, bucket) == FileTasks(ws, prefixLen, remoteDirPath, bucket) + []
                 == FileTasks(ws, prefixLen, remoteDirPath, bucket);
        } else {
          assert FileTasks(walk, prefixLen, remoteDirPath, bucket) ==
                   FileTasks(ws, prefixLen, remoteDirPath, bucket) + [UploadTask(e.path, Drop(e.path, prefixLen), remoteDirPath, bucket)];
        }
      }
    }
  }

  /** Once an error has ended the walk, later entries change nothing. */
  lemma {:induction false} WalkSticky(walk: seq<WalkEntry>, prefixLen: nat, remoteDirPath: string, bucket: string, i: nat)
    requires i <= |walk|
    requires WalkTasks(walk[..i], prefixLen, remoteDirPath, bucket).0.Some?
    ensures WalkTasks(walk, prefixLen, remoteDirPath, bucket) == WalkTasks(walk[..i], prefixLen, remoteDirPath, bucket)
    decreases |walk| - i
  {
    if i < |walk| {
      var ws := walk[..|walk| - 1];
      assert ws[..i] == walk[..i];
      WalkSticky(ws, prefixLen, remoteDirPath, bucket, i);
    } else {
      assert walk[..i] == walk;
    }
  }

  /** Every queued task uploads a walked file, under the remote directory
      and bucket of the request. */
  lemma {:induction false} WalkTasksFrom(walk: seq<WalkEntry>, prefixLen: nat, remoteDirPath: string, bucket: string)
    ensures forall t :: t in WalkTasks(walk, prefixLen, remoteDirPath, bucket).1 ==>
              t.remoteDirPath == remoteDirPath && t.bucket == bucket && t.name == Drop(t.localFile, prefixLen) &&
              exists j :: 0 <= j < |walk| && walk[j] == Entry(t.localFile, false)
    decreases |walk|
  {
    if walk != [] {
      var n := |walk| - 1;
      WalkTasksFrom(walk[..n], prefixLen, remoteDirPath, bucket);
      forall t | t in WalkTasks(walk[..n], prefixLen, remoteDirPath, bucket).1
        ensures exists j :: 0 <= j < |walk| && walk[j] == Entry(t.localFile, false)
      {
        var j :| 0 <= j < n && walk[..n][j] == Entry(t.localFile, false);
        assert walk[j] == Entry(t.localFile, false);
      }
    }
  }

  /** An uncleaned root: the walk reports the child of "./././a" as the
      cleaned "a/x", shorter than the five characters cut off, so the task
      gets an empty name (and the key is the remote prefix alone) where Go's
      slice panics. */
  lemma UncleanRootLosesName()
    ensures UploadPlan("./././a", "p", "b", Exists(true), [Entry("./././a", true), Entry("a/x", false)]) ==
            (None, [UploadTask("a/x", "", "p", "b")])
  {
    var root := "./././a";
    assert TrimSuffix(root, "/") == root;
    assert root[..|root| - 1] == "./././";
    assert LastSlash(root) == 5;
    DirPrefixSpec(root);
    assert |DirPrefix(root)| == 5;
    assert Drop("a/x", 5) == "";
    var walk := [Entry(root, true), Entry("a/x", false)];
    var t := UploadTask("a/x", Drop("a/x", 5), "p", "b");
    assert walk[..1] == [Entry(root, true)] && walk[..1][..0] == [];
    assert WalkTasks(walk[..1], 5, "p", "b") == (None, []);
    assert walk[|walk| - 1] == Entry("a/x", false) && walk[..|walk| - 1] == walk[..1];
    assert WalkTasks(walk, 5, "p", "b") == (None, WalkTasks(walk[..1], 5, "p", "b").1 + [t]);
    assert t == UploadTask("a/x", "", "p", "b");
    assert WalkTasks(walk[..1], 5, "p", "b").1 + [t] == [t];
    assert UploadPlan(root, "p", "b", Exists(true), walk) == WalkTasks(walk, 5, "p", "b");
  }

  /** `Submit`: the error it returns and the tasks it queues. */
  function UploadPlan(localPath: string, remoteDirPath: string, bucket: string, stat: Stat, walk: seq<WalkEntry>)
    : (Option<Error>, seq<UploadTask>)
  {
    match stat
    case StatFailed(e) => (Some(e), [])
    case Exists(isDir) =>
      var root := TrimSuffix(localPath, "/");
      if isDir then WalkTasks(walk, |DirPrefix(root)|, remoteDirPath, bucket)
      else (None, [UploadTask(root, FileName(localPath), remoteDirPath, bucket)])
  }

  /** A path that cannot be stat'ed queues nothing, and the stat error is returned. */
  lemma StatFailureQueuesNothing(localPath: string, remoteDirPath: string, bucket: string, e: Error, walk: seq<WalkEntry>)
    ensures UploadPlan(localPath, remoteDirPath, bucket, StatFailed(e), walk) == (Some(e), [])
  {
  }

  /** A file queues exactly one task, named by its base name, whatever the walk. */
  lemma SingleFileTask(localPath: string, remoteDirPath: string, bucket: string, walk: seq<WalkEntry>)
    requires !HasSuffix(localPath, "/")
    ensures UploadPlan(localPath, remoteDirPath, bucket, Exists(false), walk) ==
              (None, [UploadTask(localPath, SplitPath(localPath).1, remoteDirPath, bucket)])
    ensures '/' !in UploadPlan(localPath, remoteDirPath, bucket, Exists(false), walk).1[0].name
  {
    FileNameSplit(localPath);
    FileNameSlash(localPath);
  }

  /** A directory gets one task per walked file until the first walk
      error, which is returned; with no error, one task per file. */
  lemma DirectoryTasks(localPath: string, remoteDirPath: string, bucket: string, walk: seq<WalkEntry>)
    ensures var prefixLen := |DirPrefix(TrimSuffix(localPath, "/"))|;
            var i := FirstWalkError(walk);
            var r := UploadPlan(localPath, remoteDirPath, bucket, Exists(true), walk);
            (i < 0 ==> r == (None, FileTasks(walk, prefixLen, remoteDirPath, bucket))) &&
            (i >= 0 ==> r == (Some(walk[i].error), FileTasks(walk[..i], prefixLen, remoteDirPath, bucket)))
  {
    WalkSpec(walk, |DirPrefix(TrimSuffix(localPath, "/"))|, remoteDirPath, bucket);
  }

  /** Each task's name is its walked path with the root's parent prefix
      removed: prefix and name put together give the path back, and when the
      root has a parent the name keeps the '/' that followed the prefix. */
  lemma NamesRebuildPaths(localPath: string, remoteDirPath: string, bucket: string, walk: seq<WalkEntry>)
    requires WalkedUnder(TrimSuffix(localPath, "/"), walk)
    ensures var root := TrimSuffix(localPath, "/");
            forall t :: t in UploadPlan(localPath, remoteDirPath, bucket, Exists(true), walk).1 ==>
              DirPrefix(root) + t.name == t.localFile &&
              ('/' in root ==> HasPrefix(t.name, "/"))
  {
    var root := TrimSuffix(localPath, "/");
    DirPrefixIsPrefix(root);
    WalkNames(walk, DirPrefix(root), root, remoteDirPath, bucket);
  }

  /** `NamesRebuildPaths` for any prefix `pre` of the root. */
  lemma WalkNames(walk: seq<WalkEntry>, pre: string, root: string, remoteDirPath: string, bucket: string)
    requires WalkedUnder(root, walk)
    requires HasPrefix(root, pre)
    ensures forall t :: t in WalkTasks(walk, |pre|, remoteDirPath, bucket).1 ==>
              pre + t.name == t.localFile &&
              (|pre| < |root| && root[|pre|] == '/' ==> HasPrefix(t.name, "/"))
  {
    var n := |pre|;
    WalkTasksFrom(walk, n, remoteDirPath, bucket);
    forall t | t in WalkTasks(walk, n, remoteDirPath, bucket).1
      ensures pre + t.name == t.localFile && (n < |root| && root[n] == '/' ==> HasPrefix(t.name, "/"))
    {
      var j :| 0 <= j < |walk| && walk[j] == Entry(t.localFile, false);
      var p := t.localFile;
      assert HasPrefix(p, root);
      assert p[..n] == root[..n] == pre;
      TakeDrop(p, n);
      if n < |root| && root[n] == '/' {
        assert (p[..n] + Drop(p, n))[n] == p[n] == '/';
      }
    }
  }

  /** Uploading a directory whose path has a parent, such as "a/b", to the
      root of a bucket writes every file under a key that starts with '/':
      "a/b/x" goes to "/b/x". */
  lemma LeadingSlashKey(localPath: string, bucket: string, walk: seq<WalkEntry>)
    requires WalkedUnder(TrimSuffix(localPath, "/"), walk)
    requires '/' in TrimSuffix(localPath, "/")
    ensures forall t :: t in UploadPlan(localPath, "", bucket, Exists(true), walk).1 ==>
              HasPrefix(Request(t).key, "/")
  {
    NamesRebuildPaths(localPath, "", bucket, walk);
    WalkTasksFrom(walk, |DirPrefix(TrimSuffix(localPath, "/"))|, "", bucket);
  }

  // ---------------------------------------------------------------------
  // Running the queued tasks

  /** What running a task returns: `doUpload`'s error for the put the
      task makes, given what opening and putting report for that put. */
  function Outcome(send: PutRequest -> Send): UploadTask -> Option<Error> {
    t => DoUpload(send(Request(t)))
  }

  /** The failures of the queued uploads, in the order they ran. */
  function RunUploads(tasks: seq<UploadTask>, outcome: UploadTask -> Option<Error>): seq<Error>
    decreases |tasks|
  {
    if tasks == [] then []
    else RunUploads(tasks[..|tasks| - 1], outcome) + Errs(outcome(tasks[|tasks| - 1]))
  }

  /** The run records a failure exactly when some upload failed. */
  lemma {:induction false} RunUploadsClean(tasks: seq<UploadTask>, outcome: UploadTask -> Option<Error>)
    ensures RunUploads(tasks, outcome) == [] <==> forall i :: 0 <= i < |tasks| ==> outcome(tasks[i]) == None
    decreases |tasks|
  {
    if tasks != [] {
      var n := |tasks| - 1;
      var ts := tasks[..n];
      RunUploadsClean(ts, outcome);
      assert forall i :: 0 <= i < n ==> ts[i] == tasks[i];
      assert RunUploads(tasks, outcome) == RunUploads(ts, outcome) + Errs(outcome(tasks[n]));
      if outcome(tasks[n]).Some? {
        assert |RunUploads(tasks, outcome)| > 0;
      }
    }
  }

  /** `S3Uploader`: the client, the pool (its queue of closures) and the
      last-error slot. */
  class S3Uploader {
    const client: Client
    const jobs: int
    var queue: seq<UploadTask>
    var lasterror: Option<Error>

    constructor (client: Client, jobs: int)
      ensures this.client == client && this.jobs == jobs
      ensures queue == [] && lasterror == None
    {
      this.client := client;
      this.jobs := jobs;
      queue := [];
      lasterror := None;
    }

    /** `GetLastErr`. */
    method GetLastErr() returns (err: Option<Error>)
      ensures err == lasterror
    {
      err := lasterror;
    }

    /** `SetLastErr`: overwrites the slot and nothing else. */
    method SetLastErr(err: Option<Error>)
      modifies this`lasterror
      ensures lasterror == err
    {
      lasterror := err;
    }

    /** `Submit`: one task for a file, or one per file the walk visits
        until a walk error, which is returned. */
    method Submit(localPath: string, remoteDirPath: string, bucket: string, stat: Stat, walk: seq<WalkEntry>)
      returns (err: Option<Error>)
      modifies this`queue
      ensures var plan := UploadPlan(localPath, remoteDirPath, bucket, stat, walk);
              err == plan.0 && queue == old(queue) + plan.1
    {
      if stat.StatFailed? {
        return Some(stat.error);
      }
      var root := TrimSuffix(localPath, "/");
      if stat.isDir {
        var prefixLen := |DirPrefix(root)|;
        var i := 0;
        while i < |walk|
          invariant 0 <= i <= |walk|
          invariant WalkTasks(walk[..i], prefixLen, remoteDirPath, bucket).0 == None
          invariant queue == old(queue) + WalkTasks(walk[..i], prefixLen, remoteDirPath, bucket).1
        {
          assert walk[..i + 1][..i] == walk[..i];
          match walk[i] {
            case WalkError(e) =>
              WalkSticky(walk, prefixLen, remoteDirPath, bucket, i + 1);
              return Some(e);
            case Entry(p, isDir) =>
              if !isDir {
                queue := queue + [UploadTask(p, Drop(p, prefixLen), remoteDirPath, bucket)];
              }
          }
          i := i + 1;
        }
        assert walk[..i] == walk;
        err := None;
      } else {
        queue := queue + [UploadTask(root, FileName(localPath), remoteDirPath, bucket)];
        err := None;
      }
    }

    /** One queued closure: the upload, and its failure into the slot. */
    method RunTask(t: UploadTask, send: PutRequest -> Send)
      modifies this`lasterror
      ensures lasterror == LastOf(old(lasterror), Errs(Outcome(send)(t)))
    {
      var err2 := DoUpload(send(Request(t)));
      if err2.Some? {
        SetLastErr(err2);
      }
    }

    /** `Wait`: runs every queued task, oldest first. */
    method Wait(send: PutRequest -> Send)
      modifies this
      ensures queue == []
      ensures lasterror == LastOf(old(lasterror), RunUploads(old(queue), Outcome(send)))
    {
      ghost var q0, l0 := queue, lasterror;
      ghost var done: seq<UploadTask> := [];
      while queue != []
        invariant q0 == done + queue
        invariant lasterror == LastOf(l0, RunUploads(done, Outcome(send)))
        decreases |queue|
      {
        var t := queue[0];
        queue := queue[1..];
        RunTask(t, send);
        LastOfAppend(l0, RunUploads(done, Outcome(send)), Errs(Outcome(send)(t)));
        assert (done + [t])[..|done|] == done;
        done := done + [t];
      }
      assert done == q0;
    }
  }

  /** After `Wait` the slot is empty exactly when it was empty before and
      every upload succeeded. */
  lemma WaitCleanIff(l0: Option<Error>, tasks: seq<UploadTask>, send: PutRequest -> Send)
    ensures LastOf(l0, RunUploads(tasks, Outcome(send))) == None <==>
              l0 == None && forall i :: 0 <= i < |tasks| ==> DoUpload(send(Request(tasks[i]))) == None
  {
    LastOfEmpty(l0, RunUploads(tasks, Outcome(send)));
    RunUploadsClean(tasks, Outcome(send));
  }

  /** `NewS3Uploader(n_jobs)`, given what `CreateClient` returned. */
  method NewS3Uploader(jobs: int, client: Result<Client>) returns (u: S3Uploader?, err: Option<Error>)
    ensures client.Err? ==> u == null && err == Some(client.error)
    ensures client.Ok? ==> u != null && fresh(u) && err == None
    ensures client.Ok? ==> u.client == client.value && u.jobs == jobs && u.queue == [] && u.lasterror == None
  {
    if client.Err? {
      return null, Some(client.error);
    }
    u := new S3Uploader(client.value, jobs);
    err := None;
  }
}
