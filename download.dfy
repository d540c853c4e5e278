/** pkg/download.go: turning one download request into queued tasks, the
    once-per-directory `ensureDir` memo, and what running the queued tasks
    does to the memo and to the last-error slot. The object store and the
    file system appear only as the answers they give: the `os.Stat` of the
    local path, the listed keys, the `os.MkdirAll` result per directory and
    the outcomes of one `doDownload` per request. */
module Download {
  import opened Types
  import opened GoStrings
  import opened GoPath
  import opened Common
  import opened Worker

  // ---------------------------------------------------------------------
  // calcRemoteDirPrefix

  /** `calcRemoteDirPrefix`. */
  function CalcRemoteDirPrefix(remotePath: string): (string, nat) {
    var prefix := DirPrefix(TrimSuffix(remotePath, "/"));
    (prefix, |prefix|)
  }

  /** `calcRemoteDirPrefix` drops one trailing '/', keeps what precedes the
      last remaining '/' (nothing when there is none), and returns its
      length with it. */
  lemma CalcRemoteDirPrefixSpec(remotePath: string)
    ensures CalcRemoteDirPrefix(remotePath).1 == |CalcRemoteDirPrefix(remotePath).0|
    ensures HasPrefix(TrimSuffix(remotePath, "/"), CalcRemoteDirPrefix(remotePath).0)
    ensures |CalcRemoteDirPrefix(remotePath).0| <= |remotePath|
    ensures '/' !in TrimSuffix(remotePath, "/") ==> CalcRemoteDirPrefix(remotePath).0 == ""
    ensures '/' in TrimSuffix(remotePath, "/") ==>
              var t, n := TrimSuffix(remotePath, "/"), CalcRemoteDirPrefix(remotePath).1;
              n < |t| && t[n] == '/' && '/' !in t[n + 1..]
  {
    var t := TrimSuffix(remotePath, "/");
    DirPrefixSpec(t);
    LastSlashSpec(t);
  }

  // ---------------------------------------------------------------------
  // ensureDir and dirOnceMap

  /** `ensureDir` on the memo `entries`: a directory met before gets its
      cached result; a new one gets `mkdir`'s result, which is cached. */
  function Memo(entries: map<string, Option<Error>>, dirPath: string, mkdir: string -> Option<Error>)
    : (r: (Option<Error>, map<string, Option<Error>>))
    ensures dirPath in r.1 && r.0 == r.1[dirPath]
    ensures dirPath in entries ==> r == (entries[dirPath], entries)
    ensures dirPath !in entries ==> r.0 == mkdir(dirPath)
    ensures r.1.Keys == entries.Keys + {dirPath}
    ensures forall d :: d in entries ==> r.1[d] == entries[d]
  {
    if dirPath in entries then (entries[dirPath], entries)
    else
      var err := mkdir(dirPath);
      (err, entries[dirPath := err])
  }

  /** A second `ensureDir` of the same directory returns the first result,
      whatever `os.MkdirAll` would say now, and changes nothing. */
  lemma MemoStable(entries: map<string, Option<Error>>, dirPath: string,
                   mkdir: string -> Option<Error>, mkdir': string -> Option<Error>)
    ensures Memo(Memo(entries, dirPath, mkdir).1, dirPath, mkdir') == Memo(entries, dirPath, mkdir)
  {
  }

  /** `dirOnceMap`: for every directory seen, the cached `os.MkdirAll` result.
      `mkdirLog` records the directories `os.MkdirAll` actually ran on. */
  class DirRegistry {
    var entries: map<string, Option<Error>>
    ghost var mkdirLog: seq<string>

    /** `os.MkdirAll` ran once for each cached directory and for no other. */
    ghost predicate Valid()
      reads this
    {
      (forall i, j :: 0 <= i < j < |mkdirLog| ==> mkdirLog[i] != mkdirLog[j]) &&
      (forall d :: d in entries <==> d in mkdirLog)
    }

    constructor ()
      ensures Valid() && entries == map[] && mkdirLog == []
    {
      entries := map[];
      mkdirLog := [];
    }

    /** `ensureDir(dirPath)`. */
    method EnsureDir(dirPath: string, mkdir: string -> Option<Error>) returns (err: Option<Error>)
      requires Valid()
      modifies this
      ensures Valid()
      ensures (err, entries) == Memo(old(entries), dirPath, mkdir)
      ensures mkdirLog == old(mkdirLog) + (if dirPath in old(entries) then [] else [dirPath])
    {
      if dirPath in entries {
        err := entries[dirPath];
      } else {
        err := mkdir(dirPath);
        entries := entries[dirPath := err];
        mkdirLog := mkdirLog + [dirPath];
      }
    }
  }

  // ---------------------------------------------------------------------
  // doDownload

  /** The object one `doDownload` call fetches and the file it writes. */
  datatype GetRequest = GetRequest(bucket: string, key: string, versionId: string, localPath: string)

  /** What the three fallible calls of `doDownload` report: `GetObject`,
      `os.Create` and `io.Copy`. */
  datatype Fetch = Fetch(get: Option<Error>, create: Option<Error>, copy: Option<Error>)

  /** `doDownload`: the error it returns, and whether it created the local file. */
  function DoDownload(f: Fetch): (r: (Option<Error>, bool))
    ensures r.0 == None <==> f.get == None && f.create == None && f.copy == None
    ensures r.1 <==> f.get == None && f.create == None
    ensures f.get.Some? ==> r == (f.get, false)
  {
    if f.get.Some? then (f.get, false)
    else if f.create.Some? then (f.create, false)
    else (f.copy, true)
  }

  // ---------------------------------------------------------------------
  // Tasks

  /** A queued closure of `Submit`, by what it captured. */
  datatype DownloadTask =
    | RecursiveGet(bucket: string, key: string, dirPath: string, filePath: string)
    | SingleGet(bucket: string, remotePath: string, destPath: string, versionId: string)

  /** A listed key that names a directory marker. */
  predicate IsMarker(key: string) {
    HasSuffix(key, "/")
  }

  /** The slices the source takes of a key are in bounds. */
  predicate KeyFits(prefixLen: nat, key: string) {
    prefixLen <= LastSlash(key) + 1
  }

  /** The keys the listing returned all start with the listing prefix, as
      `ListObjectsV2` promises. */
  predicate ListedUnder(prefix: string, keys: seq<string>) {
    forall i :: 0 <= i < |keys| ==> HasPrefix(keys[i], prefix)
  }

  predicate AllFit(prefixLen: nat, keys: seq<string>) {
    forall i :: 0 <= i < |keys| ==> KeyFits(prefixLen, keys[i])
  }

    /** The task queued for a key: the key's directory below the listing's
      parent prefix, placed under `localPath`, and the key's base name in it. */
  function KeyTask(bucket: string, localPath: string, prefixLen: nat, key: string): (t: DownloadTask)
    ensures t.RecursiveGet? && t.bucket == bucket && t.key == key
  {
    var (dir, file) := SplitPath(key);
    var dirPath := Join(localPath, Drop(dir, prefixLen));
    RecursiveGet(bucket, key, dirPath, Join(dirPath, file))
  }

  /** The check the loop applies to a key's path below the prefix. */
  function KeyCheck(localPath: string, prefixLen: nat, noCheck: bool, cwd: string): string -> Option<Error> {
    key => ValidatePath(Drop(key, prefixLen), localPath, noCheck, cwd)
  }

  function KeyTasks(bucket: string, localPath: string, prefixLen: nat): string -> DownloadTask {
    key => KeyTask(bucket, localPath, prefixLen, key)
  }

  /** Whether the loop lets a key through: a marker is skipped, any other
      key must pass `check`. */
  predicate Accepted(check: string -> Option<Error>, key: string) {
    IsMarker(key) || check(key) == None
  }

  /** The loop of the recursive `Submit` over the listed keys: the error
      that stopped it, if any, and the tasks queued until then. */
  function Expand(keys: seq<string>, check: string -> Option<Error>, task: string -> DownloadTask)
    : (Option<Error>, seq<DownloadTask>)
    decreases |keys|
  {
    if keys == [] then (None, [])
    else
      var (err, tasks) := Expand(keys[..|keys| - 1], check, task);
      var key := keys[|keys| - 1];
      if err.Some? || IsMarker(key) then (err, tasks)
      else match check(key)
        case Some(e) => (Some(InvalidRemoteKey(key, e)), tasks)
        case None => (None, tasks + [task(key)])
  }

  /** One task per key that is not a marker, in listing order. */
  function MarkerFreeTasks(keys: seq<string>, task: string -> DownloadTask): seq<DownloadTask>
    decreases |keys|
  {
    if keys == [] then []
    else
      var key := keys[|keys| - 1];
      MarkerFreeTasks(keys[..|keys| - 1], task) + (if IsMarker(key) then [] else [task(key)])
  }

  /** The position of the first key the loop refuses, or -1. */
  function FirstRejected(keys: seq<string>, check: string -> Option<Error>): (i: int)
    ensures -1 <= i < |keys|
    ensures i >= 0 ==> !Accepted(check, keys[i])
    ensures forall j :: 0 <= j < |keys| && (i < 0 || j < i) ==> Accepted(check, keys[j])
    decreases |keys|
  {
    if keys == [] then -1
    else
      var n := |keys| - 1;
      var i := FirstRejected(keys[..n], check);
      if i >= 0 then i
      else if !Accepted(check, keys[n]) then n
      else -1
  }

  /** The loop stops at the first refused key, with the error naming that
      key, and keeps the tasks of the keys before it; when no key is
      refused it queues one task per non-marker key, in order. */
  lemma {:induction false} ExpandSpec(keys: seq<string>, check: string -> Option<Error>, task: string -> DownloadTask)
    ensures var i := FirstRejected(keys, check);
            var r := Expand(keys, check, task);
            (i < 0 ==> r == (None, MarkerFreeTasks(keys, task))) &&
            (i >= 0 ==> r == (Some(InvalidRemoteKey(keys[i], check(keys[i]).value)), MarkerFreeTasks(keys[..i], task)))
    decreases |keys|
  {
    if keys != [] {
      var n := |keys| - 1;
      var ks := keys[..n];
      ExpandSpec(ks, check, task);
      var i := FirstRejected(ks, check);
      var key := keys[n];
      if i >= 0 {
        assert keys[..i] == ks[..i];
      } else if IsMarker(key) {
        assert MarkerFreeTasks(keys, task) == MarkerFreeTasks(ks, task) + [] == MarkerFreeTasks(ks, task);
        assert Expand(keys, check, task) == (None, MarkerFreeTasks(ks, task));
        assert FirstRejected(keys, check) == -1;
      } else if check(key).Some? {
        assert keys[..n] == ks;
        assert FirstRejected(keys, check) == n;
      } else {
        assert MarkerFreeTasks(keys, task) == MarkerFreeTasks(ks, task) + [task(key)];
      }
    }
  }

  /** Once an error has stopped the loop, later keys change nothing. */
  lemma {:induction false} ExpandSticky(keys: seq<string>, check: string -> Option<Error>, task: string -> DownloadTask, i: nat)
    requires i <= |keys|
    requires Expand(keys[..i], check, task).0.Some?
    ensures Expand(keys, check, task) == Expand(keys[..i], check, task)
    decreases |keys| - i
  {
    if i < |keys| {
      var ks := keys[..|keys| - 1];
      assert ks[..i] == keys[..i];
      ExpandSticky(ks, check, task, i);
    } else {
      assert keys[..i] == keys;
    }
  }

  /** Every queued task is the task of a listed, non-marker key that passed
      the check. */
  lemma {:induction false} ExpandTasksFrom(keys: seq<string>, check: string -> Option<Error>, task: string -> DownloadTask)
    ensures forall t :: t in Expand(keys, check, task).1 ==>
              exists k :: k in keys && !IsMarker(k) && check(k) == None && t == task(k)
    decreases |keys|
  {
    if keys != [] {
      var n := |keys| - 1;
      ExpandTasksFrom(keys[..n], check, task);
      assert forall k :: k in keys[..n] ==> k in keys;
      assert keys[n] in keys;
    }
  }

  /** The slice of a key below the listing's parent prefix is in bounds. */
  lemma ListedKeysFit(rp: string, keys: seq<string>)
    requires ListedUnder(rp, keys)
    ensures AllFit(CalcRemoteDirPrefix(rp).1, keys)
  {
    var t := TrimSuffix(rp, "/");
    var n := CalcRemoteDirPrefix(rp).1;
    CalcRemoteDirPrefixSpec(rp);
    forall i | 0 <= i < |keys|
      ensures KeyFits(n, keys[i])
    {
      var k := keys[i];
      if '/' in t {
        assert t == rp[..|t|];
        assert k[n] == rp[n] == t[n];
        LastSlashAtLeast(k, n);
      } else {
        LastSlashSpec(k);
      }
    }
  }

  // ---------------------------------------------------------------------
  // Submit

  /** Where a single object goes: into `localPath` when it is an existing
      directory, otherwise to `localPath` itself. */
  function SingleDest(localPath: string, filename: string, stat: Stat): string {
    if stat.Exists? && stat.isDir then Join(localPath, filename) else localPath
  }

  /** The non-recursive branch of `Submit`, after the trailing '/' is gone. */
  function SinglePlan(localPath: string, rp: string, bucket: string, versionId: string,
                      noCheck: bool, cwd: string, stat: Stat): (Option<Error>, seq<DownloadTask>)
  {
    var filename := SplitPath(rp).1;
    var v := ValidatePath(filename, "", noCheck, cwd);
    if v.Some? then (Some(InvalidRemotePath(v.value)), [])
    else
      var destPath := SingleDest(localPath, filename, stat);
      var w := ValidatePath(destPath, "", noCheck, cwd);
      if w.Some? then (Some(InvalidDestinationPath(w.value)), [])
      else (None, [SingleGet(bucket, rp, destPath, versionId)])
  }

  /** The recursive branch of `Submit`, after the trailing '/' is gone. */
  function RecursivePlan(localPath: string, rp: string, bucket: string, noCheck: bool, cwd: string,
                         stat: Stat, listing: Result<seq<string>>): (Option<Error>, seq<DownloadTask>)
  {
    var prefixLen := CalcRemoteDirPrefix(rp).1;
    var v := ValidatePath(localPath, "", noCheck, cwd);
    if stat.Exists? && !stat.isDir then (Some(IsAFile(localPath)), [])
    else if v.Some? then (Some(InvalidLocalPath(v.value)), [])
    else if listing.Err? then (Some(listing.error), [])
    else Expand(listing.value, KeyCheck(localPath, prefixLen, noCheck, cwd), KeyTasks(bucket, localPath, prefixLen))
  }

  /** `Downloader.Submit`: the error it returns and the tasks it queues.
      `noCheck` is the `no-local-path-check` flag; false is `pkg/download.go`
      as written. */
  function SubmitPlan(localPath: string, remotePath: string, bucket: string, recursive: bool,
                      versionId: string, noCheck: bool, cwd: string, stat: Stat,
                      listing: Result<seq<string>>): (Option<Error>, seq<DownloadTask>)
  {
    var rp := TrimSuffix(remotePath, "/");
    if recursive then RecursivePlan(localPath, rp, bucket, noCheck, cwd, stat, listing)
    else SinglePlan(localPath, rp, bucket, versionId, noCheck, cwd, stat)
  }

  /** A recursive request into an existing file, or from a local path that
      fails the string checks, queues nothing. */
  lemma RecursiveRefusals(localPath: string, remotePath: string, bucket: string, cwd: string,
                          stat: Stat, listing: Result<seq<string>>)
    ensures stat == Exists(false) ==>
              SubmitPlan(localPath, remotePath, bucket, true, "", false, cwd, stat, listing) == (Some(IsAFile(localPath)), [])
    ensures !PassesStringChecks(localPath) ==>
              SubmitPlan(localPath, remotePath, bucket, true, "", false, cwd, stat, listing).0.Some? &&
              SubmitPlan(localPath, remotePath, bucket, true, "", false, cwd, stat, listing).1 == []
  {
    ValidateEmptyBase(localPath, cwd, cwd);
  }

  /** A single-object request queues exactly one task, into `localPath` or
      under it when it is a directory, when the object's base name and the
      destination pass the string checks, and nothing otherwise. */
  lemma SinglePlanSpec(localPath: string, remotePath: string, bucket: string, versionId: string,
                       cwd: string, stat: Stat, listing: Result<seq<string>>)
    ensures var rp := TrimSuffix(remotePath, "/");
            var filename := SplitPath(rp).1;
            var dest := SingleDest(localPath, filename, stat);
            var r := SubmitPlan(localPath, remotePath, bucket, false, versionId, false, cwd, stat, listing);
            (r.0 == None <==> PassesStringChecks(filename) && PassesStringChecks(dest)) &&
            (r.0 == None ==> r.1 == [SingleGet(bucket, rp, dest, versionId)]) &&
            (r.0.Some? ==> r.1 == []) &&
            (dest == Join(localPath, filename) || dest == localPath) &&
            (stat.Exists? && stat.isDir ==> dest == Join(localPath, filename))
  {
    var rp := TrimSuffix(remotePath, "/");
    var filename := SplitPath(rp).1;
    ValidateEmptyBase(filename, cwd, cwd);
    ValidateEmptyBase(SingleDest(localPath, filename, stat), cwd, cwd);
  }

  /** The recursive request, once the stat and the local path pass and the
      keys are listed, stops at the first refused key with that key's
      error and the tasks of the keys before it, and otherwise queues one
      task per non-marker key in listing order. */
  lemma RecursivePlanSpec(localPath: string, remotePath: string, bucket: string, noCheck: bool, cwd: string,
                          stat: Stat, keys: seq<string>)
    requires !(stat.Exists? && !stat.isDir) && ValidatePath(localPath, "", noCheck, cwd) == None
    ensures var rp := TrimSuffix(remotePath, "/");
            var prefixLen := CalcRemoteDirPrefix(rp).1;
            var check, task := KeyCheck(localPath, prefixLen, noCheck, cwd), KeyTasks(bucket, localPath, prefixLen);
            var i := FirstRejected(keys, check);
            var r := SubmitPlan(localPath, remotePath, bucket, true, "", noCheck, cwd, stat, Ok(keys));
            (i < 0 ==> r == (None, MarkerFreeTasks(keys, task))) &&
            (i >= 0 ==> r == (Some(InvalidRemoteKey(keys[i], check(keys[i]).value)), MarkerFreeTasks(keys[..i], task)))
  {
    var rp := TrimSuffix(remotePath, "/");
    var prefixLen := CalcRemoteDirPrefix(rp).1;
    ExpandSpec(keys, KeyCheck(localPath, prefixLen, noCheck, cwd), KeyTasks(bucket, localPath, prefixLen));
  }

  /** With the check switched off, only the stat and the listing can stop a
      recursive request, and every non-marker key gets its task. */
  lemma SkippedCheckAcceptsAll(localPath: string, remotePath: string, bucket: string, cwd: string,
                               stat: Stat, keys: seq<string>)
    ensures var rp := TrimSuffix(remotePath, "/");
            var prefixLen := CalcRemoteDirPrefix(rp).1;
            SubmitPlan(localPath, remotePath, bucket, true, "", true, cwd, stat, Ok(keys)) ==
              if stat.Exists? && !stat.isDir then (Some(IsAFile(localPath)), [])
              else (None, MarkerFreeTasks(keys, KeyTasks(bucket, localPath, prefixLen)))
  {
    var rp := TrimSuffix(remotePath, "/");
    var prefixLen := CalcRemoteDirPrefix(rp).1;
    ExpandSpec(keys, KeyCheck(localPath, prefixLen, true, cwd), KeyTasks(bucket, localPath, prefixLen));
  }

  /** For a key that fits, its path below the prefix is the task's
      directory below the prefix followed by the base name, and the
      directory part is empty or ends in '/'. */
  lemma KeySlices(prefixLen: nat, key: string)
    requires KeyFits(prefixLen, key)
    ensures var (dir, file) := SplitPath(key);
            var sub := Drop(dir, prefixLen);
            prefixLen <= |dir| && Drop(key, prefixLen) == sub + file &&
            (sub == "" || sub[|sub| - 1] == '/')
  {
    var (dir, file) := SplitPath(key);
    SplitPathSpec(key);
    DropConcat(dir, file, prefixLen);
    if prefixLen < |dir| {
      assert Drop(dir, prefixLen) == Drop(dir[..|dir| - 1], prefixLen) + [dir[|dir| - 1]];
    }
  }

  /** Joining a directory part and a base name onto a base, one after the
      other, resolves like joining their concatenation. */
  lemma JoinTwice(cwd: string, localPath: string, sub: string, file: string)
    requires localPath != "" && IsRooted(cwd)
    requires sub == "" || sub[|sub| - 1] == '/'
    ensures Resolved(Abs(cwd, Join(Join(localPath, sub), file))) == Resolved(Join(Abs(cwd, localPath), sub + file))
  {
    var absBase := Abs(cwd, localPath);
    SegsAfterSlash(sub, file);
    AbsOfJoin(cwd, localPath, sub);
    AbsOfJoin(cwd, Join(localPath, sub), file);
    FoldConcat(true, Resolved(absBase), Segs(sub), Segs(file));
    AbsRooted(cwd, localPath);
    ResolvedJoin(absBase, sub + file);
  }

  /** The file a recursive task writes lies inside `localPath` once both are
      made absolute against the working directory, for every key the
      check accepted. */
  lemma KeyTaskConfined(bucket: string, localPath: string, prefixLen: nat, key: string, cwd: string)
    requires KeyFits(prefixLen, key)
    requires localPath != "" && IsRooted(cwd)
    requires ValidatePath(Drop(key, prefixLen), localPath, false, cwd) == None
    ensures Within(Abs(cwd, KeyTask(bucket, localPath, prefixLen, key).filePath), Abs(cwd, localPath))
  {
    var (dir, file) := SplitPath(key);
    var sub := Drop(dir, prefixLen);
    KeySlices(prefixLen, key);
    JoinTwice(cwd, localPath, sub, file);
    ValidateConfines(sub + file, localPath, cwd);
  }

  /** Every task the recursive `Submit` queues writes inside `localPath`. */
  lemma SubmitConfined(localPath: string, remotePath: string, bucket: string, cwd: string,
                       stat: Stat, listing: Result<seq<string>>)
    requires listing.Ok? ==> ListedUnder(TrimSuffix(remotePath, "/"), listing.value)
    requires localPath != "" && IsRooted(cwd)
    ensures forall t :: t in SubmitPlan(localPath, remotePath, bucket, true, "", false, cwd, stat, listing).1 ==>
              t.RecursiveGet? && Within(Abs(cwd, t.filePath), Abs(cwd, localPath))
  {
    RecursiveTasks(localPath, remotePath, bucket, false, cwd, stat, listing);
    if listing.Ok? {
      ExpandConfined(TrimSuffix(remotePath, "/"), listing.value, localPath, bucket, cwd);
    }
  }

  /** A recursive request queues nothing, or the tasks the loop queues
      over the listed keys. */
  lemma RecursiveTasks(localPath: string, remotePath: string, bucket: string, noCheck: bool, cwd: string,
                       stat: Stat, listing: Result<seq<string>>)
    ensures var prefixLen := CalcRemoteDirPrefix(TrimSuffix(remotePath, "/")).1;
            var tasks := SubmitPlan(localPath, remotePath, bucket, true, "", noCheck, cwd, stat, listing).1;
            tasks == [] ||
            (listing.Ok? &&
             tasks == Expand(listing.value, KeyCheck(localPath, prefixLen, noCheck, cwd), KeyTasks(bucket, localPath, prefixLen)).1)
  {
  }

  /** Every task the loop queues over listed keys writes inside `localPath`. */
  lemma ExpandConfined(rp: string, keys: seq<string>, localPath: string, bucket: string, cwd: string)
    requires ListedUnder(rp, keys)
    requires localPath != "" && IsRooted(cwd)
    ensures var prefixLen := CalcRemoteDirPrefix(rp).1;
            forall t :: t in Expand(keys, KeyCheck(localPath, prefixLen, false, cwd), KeyTasks(bucket, localPath, prefixLen)).1 ==>
              t.RecursiveGet? && Within(Abs(cwd, t.filePath), Abs(cwd, localPath))
  {
    var prefixLen := CalcRemoteDirPrefix(rp).1;
    var check, task := KeyCheck(localPath, prefixLen, false, cwd), KeyTasks(bucket, localPath, prefixLen);
    ListedKeysFit(rp, keys);
    ExpandTasksFrom(keys, check, task);
    forall t | t in Expand(keys, check, task).1
      ensures t.RecursiveGet? && Within(Abs(cwd, t.filePath), Abs(cwd, localPath))
    {
      var k :| k in keys && !IsMarker(k) && check(k) == None && t == task(k);
      var j :| 0 <= j < |keys| && keys[j] == k;
      assert KeyFits(prefixLen, keys[j]);
      KeyTaskConfined(bucket, localPath, prefixLen, k, cwd);
    }
  }


  // ---------------------------------------------------------------------
  // Running the queued tasks

  /** One queued closure run: the memo after it and the error it set, if any. */
  function RunOne(entries: map<string, Option<Error>>, t: DownloadTask,
                  mkdir: string -> Option<Error>, fetch: GetRequest -> Fetch)
    : (map<string, Option<Error>>, seq<Error>)
  {
    match t
    case RecursiveGet(bucket, key, dirPath, filePath) =>
      var (err, entries') := Memo(entries, dirPath, mkdir);
      if err.Some? then (entries', [err.value])
      else (entries', Errs(DoDownload(fetch(GetRequest(bucket, key, "", filePath))).0))
    case SingleGet(bucket, remotePath, destPath, versionId) =>
      (entries, Errs(DoDownload(fetch(GetRequest(bucket, remotePath, versionId, destPath))).0))
  }

  /** The queued closures run one after the other, first queued first. */
  function RunTasks(entries: map<string, Option<Error>>, tasks: seq<DownloadTask>,
                    mkdir: string -> Option<Error>, fetch: GetRequest -> Fetch)
    : (map<string, Option<Error>>, seq<Error>)
    decreases |tasks|
  {
    if tasks == [] then (entries, [])
    else
      var (entries', errs) := RunTasks(entries, tasks[..|tasks| - 1], mkdir, fetch);
      var (entries'', errs') := RunOne(entries', tasks[|tasks| - 1], mkdir, fetch);
      (entries'', errs + errs')
  }

  /** Running one more task continues from where the earlier ones left off. */
  lemma RunTasksSnoc(entries: map<string, Option<Error>>, tasks: seq<DownloadTask>, t: DownloadTask,
                     mkdir: string -> Option<Error>, fetch: GetRequest -> Fetch)
    ensures var before := RunTasks(entries, tasks, mkdir, fetch);
            var step := RunOne(before.0, t, mkdir, fetch);
            RunTasks(entries, tasks + [t], mkdir, fetch) == (step.0, before.1 + step.1)
  {
    assert (tasks + [t])[..|tasks|] == tasks;
  }

  /** A recursive task whose directory could not be made downloads nothing:
      its effect does not depend on the object store. */
  lemma MkdirFailureSkipsDownload(entries: map<string, Option<Error>>, t: DownloadTask,
                                  mkdir: string -> Option<Error>, fetch: GetRequest -> Fetch, fetch': GetRequest -> Fetch)
    requires t.RecursiveGet? && Memo(entries, t.dirPath, mkdir).0.Some?
    ensures RunOne(entries, t, mkdir, fetch) == RunOne(entries, t, mkdir, fetch')
    ensures RunOne(entries, t, mkdir, fetch).1 == [Memo(entries, t.dirPath, mkdir).0.value]
  {
  }

  /** After the run the memo holds, for every directory, the result of the
      only `os.MkdirAll` it ever got: the cached one, or the one made when a
      task first needed it. */
  lemma {:induction false} RunTasksMemo(entries: map<string, Option<Error>>, tasks: seq<DownloadTask>,
                                        mkdir: string -> Option<Error>, fetch: GetRequest -> Fetch)
    ensures var e := RunTasks(entries, tasks, mkdir, fetch).0;
            (forall d :: d in entries ==> d in e && e[d] == entries[d]) &&
            (forall d :: d in e && d !in entries ==> e[d] == mkdir(d))
    decreases |tasks|
  {
    if tasks != [] {
      RunTasksMemo(entries, tasks[..|tasks| - 1], mkdir, fetch);
    }
  }

  /** `Downloader`: a `baseWorker` whose tasks are downloads. */
  class Downloader {
    const worker: BaseWorker<DownloadTask>

    constructor (worker: BaseWorker<DownloadTask>)
      ensures this.worker == worker
    {
      this.worker := worker;
    }

    /** `Submit`: validates the request and queues its tasks in order; on
        an error the tasks queued before it stay queued. The listing's keys
        start with the listing prefix, which keeps the source's slices of
        them in bounds. */
    method Submit(localPath: string, remotePath: string, bucket: string, recursive: bool,
                  versionId: string, noCheck: bool, cwd: string, stat: Stat,
                  listing: Result<seq<string>>) returns (err: Option<Error>)
      requires listing.Ok? ==> ListedUnder(TrimSuffix(remotePath, "/"), listing.value)
      modifies worker`queue
      ensures var plan := SubmitPlan(localPath, remotePath, bucket, recursive, versionId, noCheck, cwd, stat, listing);
              err == plan.0 && worker.queue == old(worker.queue) + plan.1
    {
      var rp := TrimSuffix(remotePath, "/");
      if recursive {
        err := SubmitRecursive(localPath, rp, bucket, noCheck, cwd, stat, listing);
      } else {
        err := SubmitSingle(localPath, rp, bucket, versionId, noCheck, cwd, stat);
      }
    }

    /** The recursive branch of `Submit`. */
    method SubmitRecursive(localPath: string, rp: string, bucket: string, noCheck: bool, cwd: string,
                           stat: Stat, listing: Result<seq<string>>) returns (err: Option<Error>)
      requires listing.Ok? ==> ListedUnder(rp, listing.value)
      modifies worker`queue
      ensures var plan := RecursivePlan(localPath, rp, bucket, noCheck, cwd, stat, listing);
              err == plan.0 && worker.queue == old(worker.queue) + plan.1
    {
      var prefixLen := CalcRemoteDirPrefix(rp).1;
      if stat.Exists? && !stat.isDir {
        return Some(IsAFile(localPath));
      }
      var v := ValidatePath(localPath, "", noCheck, cwd);
      if v.Some? {
        return Some(InvalidLocalPath(v.value));
      }
      if listing.Err? {
        return Some(listing.error);
      }
      ListedKeysFit(rp, listing.value);
      err := EnqueueKeys(listing.value, KeyCheck(localPath, prefixLen, noCheck, cwd), KeyTasks(bucket, localPath, prefixLen));
    }

    /** The single-object branch of `Submit`. */
    method SubmitSingle(localPath: string, rp: string, bucket: string, versionId: string, noCheck: bool,
                        cwd: string, stat: Stat) returns (err: Option<Error>)
      modifies worker`queue
      ensures var plan := SinglePlan(localPath, rp, bucket, versionId, noCheck, cwd, stat);
              err == plan.0 && worker.queue == old(worker.queue) + plan.1
    {
      var filename := SplitPath(rp).1;
      var v := ValidatePath(filename, "", noCheck, cwd);
      if v.Some? {
        return Some(InvalidRemotePath(v.value));
      }
      var destPath := SingleDest(localPath, filename, stat);
      var w := ValidatePath(destPath, "", noCheck, cwd);
      if w.Some? {
        return Some(InvalidDestinationPath(w.value));
      }
      worker.Enqueue(SingleGet(bucket, rp, destPath, versionId));
      err := None;
    }

    /** The loop over the listed keys: a marker is skipped, a key the check
        refuses ends the loop with its error, any other key queues its task. */
    method EnqueueKeys(keys: seq<string>, check: string -> Option<Error>, task: string -> DownloadTask)
      returns (err: Option<Error>)
      modifies worker`queue
      ensures err == Expand(keys, check, task).0
      ensures worker.queue == old(worker.queue) + Expand(keys, check, task).1
    {
      var i := 0;
      while i < |keys|
        invariant 0 <= i <= |keys|
        invariant Expand(keys[..i], check, task).0 == None
        invariant worker.queue == old(worker.queue) + Expand(keys[..i], check, task).1
      {
        var key := keys[i];
        assert keys[..i + 1][..i] == keys[..i];
        if !IsMarker(key) {
          var e := check(key);
          if e.Some? {
            ExpandSticky(keys, check, task, i + 1);
            return Some(InvalidRemoteKey(key, e.value));
          }
          worker.Enqueue(task(key));
        }
        i := i + 1;
      }
      assert keys[..i] == keys;
      err := None;
    }

    /** One queued closure: a recursive task makes its directory through
        the memo and downloads only when that succeeded; a single task
        downloads. A failure goes to the last-error slot. */
    method RunTask(t: DownloadTask, dirs: DirRegistry, mkdir: string -> Option<Error>, fetch: GetRequest -> Fetch)
      requires dirs.Valid()
      modifies worker`lasterror, dirs
      ensures dirs.Valid() && old(dirs.mkdirLog) <= dirs.mkdirLog
      ensures var step := RunOne(old(dirs.entries), t, mkdir, fetch);
              dirs.entries == step.0 && worker.lasterror == LastOf(old(worker.lasterror), step.1)
    {
      match t {
        case RecursiveGet(bucket, key, dirPath, filePath) =>
          var e := dirs.EnsureDir(dirPath, mkdir);
          if e.Some? {
            worker.SetLastErr(e);
          } else {
            var d := DoDownload(fetch(GetRequest(bucket, key, "", filePath))).0;
            if d.Some? {
              worker.SetLastErr(d);
            }
          }
        case SingleGet(bucket, remotePath, destPath, versionId) =>
          var d := DoDownload(fetch(GetRequest(bucket, remotePath, versionId, destPath))).0;
          if d.Some? {
            worker.SetLastErr(d);
          }
      }
    }

    /** `Wait`: runs every queued task, oldest first, against the shared
        directory memo; each failure overwrites the last-error slot. */
    method Wait(dirs: DirRegistry, mkdir: string -> Option<Error>, fetch: GetRequest -> Fetch)
      requires dirs.Valid()
      modifies worker, dirs
      ensures dirs.Valid() && worker.queue == []
      ensures old(dirs.mkdirLog) <= dirs.mkdirLog
      ensures var run := RunTasks(old(dirs.entries), old(worker.queue), mkdir, fetch);
              dirs.entries == run.0 && worker.lasterror == LastOf(old(worker.lasterror), run.1)
    {
      ghost var q0, e0, l0 := worker.queue, dirs.entries, worker.lasterror;
      ghost var done: seq<DownloadTask> := [];
      while worker.queue != []
        invariant dirs.Valid() && old(dirs.mkdirLog) <= dirs.mkdirLog
        invariant q0 == done + worker.queue
        invariant dirs.entries == RunTasks(e0, done, mkdir, fetch).0
        invariant worker.lasterror == LastOf(l0, RunTasks(e0, done, mkdir, fetch).1)
        decreases |worker.queue|
      {
        var t := worker.Dequeue();
        ghost var before := RunTasks(e0, done, mkdir, fetch);
        RunTask(t, dirs, mkdir, fetch);
        LastOfAppend(l0, before.1, RunOne(before.0, t, mkdir, fetch).1);
        RunTasksSnoc(e0, done, t, mkdir, fetch);
        done := done + [t];
      }
      assert done == q0;
    }
  }

  /** `NewDownloader(n_jobs)`, given what `CreateClient` returned. */
  method NewDownloader(jobs: int, client: Result<Client>) returns (d: Downloader?, err: Option<Error>)
    ensures client.Err? ==> d == null && err == Some(client.error)
    ensures client.Ok? ==> d != null && fresh(d) && fresh(d.worker) && err == None
    ensures client.Ok? ==> d.worker.client == client.value && d.worker.jobs == jobs &&
                           d.worker.queue == [] && d.worker.lasterror == None
  {
    var bw, e := NewBaseWorker<DownloadTask>(jobs, client);
    if e.Some? {
      return null, e;
    }
    d := new Downloader(bw);
    err := None;
  }
}
