/** cmd/get.go and cmd/put.go: the `get` and `put` commands, from their
    arguments to the error they return. The flags, the environment value,
    the CPU count, what `url.Parse` and `CreateClient` return, and the
    answers of the file system and the object store are parameters. */
module Cmd {
  import opened Types
  import opened GoStrings
  import opened Common
  import opened Config
  import opened Worker
  import opened Download
  import opened Upload

  // ---------------------------------------------------------------------
  // The worker count, as both commands resolve it

  /** The count asked for: a positive `--jobs` value, else a positive
      `TINYS3_JOBS`, else the default. */
  function RequestedJobs(jobsFlag: int, env: string, cpu: int): (n: int)
    ensures jobsFlag > 0 ==> n == jobsFlag
    ensures jobsFlag <= 0 && WorkerCountFromEnv(env) > 0 ==> n == WorkerCountFromEnv(env)
    ensures jobsFlag <= 0 && WorkerCountFromEnv(env) <= 0 ==> n == DefaultWorkerCount(cpu)
  {
    if jobsFlag <= 0 then
      var envJobs := WorkerCountFromEnv(env);
      if envJobs > 0 then envJobs else DefaultWorkerCount(cpu)
    else jobsFlag
  }

  /** `n_jobs` as both commands compute it: the requested count, clamped
      when `ValidateWorkerCount` warns. */
  method ResolveJobs(jobsFlag: int, env: string, cpu: int) returns (nJobs: int)
    ensures MinWorkerCount <= nJobs <= MaxWorkerCount(cpu)
    ensures nJobs == ValidateWorkerCount(cpu, RequestedJobs(jobsFlag, env, cpu)).0
  {
    nJobs := jobsFlag;
    if nJobs <= 0 {
      var envJobs := WorkerCountFromEnv(env);
      if envJobs > 0 {
        nJobs := envJobs;
      } else {
        nJobs := DefaultWorkerCount(cpu);
      }
    }
    var (clamped, warning) := ValidateWorkerCount(cpu, nJobs);
    if warning != "" {
      nJobs := clamped;
    }
  }

  /** The precedence the commands promise: an explicit count in range is
      used as it is; without one, a number in range in the environment is
      used; without either, the default. A count out of range is clamped
      to the nearer bound. */
  lemma JobsPrecedence(jobsFlag: int, env: string, cpu: int)
    ensures var n := ValidateWorkerCount(cpu, RequestedJobs(jobsFlag, env, cpu)).0;
            (1 <= jobsFlag <= MaxWorkerCount(cpu) ==> n == jobsFlag) &&
            (jobsFlag > MaxWorkerCount(cpu) ==> n == MaxWorkerCount(cpu)) &&
            (jobsFlag <= 0 && Atoi(env).Some? && 1 <= Atoi(env).value <= MaxWorkerCount(cpu) && env != "" ==>
               n == Atoi(env).value) &&
            (jobsFlag <= 0 && Atoi(env).None? ==> n == DefaultWorkerCount(cpu))
  {
    DefaultWithinMax(cpu);
  }

  /** The error `get` and `put` return once the transfers ran: the last
      error a task recorded, if any. */
  function ExitError(lasterror: Option<Error>): (r: Option<Error>)
    ensures r == None <==> lasterror == None
  {
    if lasterror.Some? then Some(TransferFailed(lasterror.value)) else None
  }

  // ---------------------------------------------------------------------
  // get

  /** `get S3URI localPath`. `parse` stands for `url.Parse`, `list(prefix)`
      for the listing of the bucket under `prefix`, and `stat` for the
      `os.Stat` of the local path. The downloader created is returned so
      that its state can be stated. */
  method RunGet(args: seq<string>, parse: string -> Result<Url>, recursive: bool, jobsFlag: int, env: string,
                cpu: int, versionId: string, noCheck: bool, cwd: string, client: Result<Client>, stat: Stat,
                list: string -> Result<seq<string>>, dirs: DirRegistry,
                mkdir: string -> Option<Error>, fetch: GetRequest -> Fetch)
    returns (err: Option<Error>, d: Downloader?)
    requires dirs.Valid()
    requires forall p :: list(p).Ok? ==> ListedUnder(p, list(p).value)
    modifies dirs
    ensures dirs.Valid()
    ensures |args| < 2 ==> err == Some(MissingArguments) && d == null && dirs.entries == old(dirs.entries)
    ensures |args| >= 2 && ParseS3URI(parse(args[0])).Err? ==>
              err == Some(InvalidUri(ParseS3URI(parse(args[0])).error)) && d == null && dirs.entries == old(dirs.entries)
    ensures |args| >= 2 && ParseS3URI(parse(args[0])).Ok? && client.Err? ==>
              err == Some(CreateFailed(client.error)) && d == null && dirs.entries == old(dirs.entries)
    ensures d != null ==>
              fresh(d) && fresh(d.worker) && d.worker.jobs == ValidateWorkerCount(cpu, RequestedJobs(jobsFlag, env, cpu)).0
    ensures |args| >= 2 && ParseS3URI(parse(args[0])).Ok? && client.Ok? ==> d != null
    ensures d != null && versionId != "" && recursive ==>
              err == Some(VersionWithRecursive) && d.worker.queue == [] && dirs.entries == old(dirs.entries)
    ensures d != null && !(versionId != "" && recursive) ==>
              var loc := ParseS3URI(parse(args[0])).value;
              var plan := SubmitPlan(args[1], loc.remotePath, loc.bucket, recursive, versionId, noCheck, cwd, stat,
                                     list(TrimSuffix(loc.remotePath, "/")));
              (plan.0.Some? ==>
                 err == Some(SubmitFailed(plan.0.value)) && d.worker.queue == plan.1 &&
                 dirs.entries == old(dirs.entries)) &&
              (plan.0 == None ==>
                 var run := RunTasks(old(dirs.entries), plan.1, mkdir, fetch);
                 d.worker.queue == [] && dirs.entries == run.0 && err == ExitError(LastOf(None, run.1)))
  {
    d := null;
    if |args| < 2 {
      return Some(MissingArguments), null;
    }
    var uriStr, localPath := args[0], args[1];
    var parsed := ParseS3URI(parse(uriStr));
    if parsed.Err? {
      return Some(InvalidUri(parsed.error)), null;
    }
    var bucketName, remotePath := parsed.value.bucket, parsed.value.remotePath;
    var nJobs := ResolveJobs(jobsFlag, env, cpu);
    var downloader, e := NewDownloader(nJobs, client);
    if e.Some? {
      return Some(CreateFailed(e.value)), null;
    }
    d := downloader;
    if versionId != "" && recursive {
      return Some(VersionWithRecursive), d;
    }
    err := SubmitAndWait(d, localPath, remotePath, bucketName, recursive, versionId, noCheck, cwd, stat,
                         list(TrimSuffix(remotePath, "/")), dirs, mkdir, fetch);
  }

  /** The end of `get`: the request is submitted to a fresh downloader;
      a `Submit` error is returned at once, without `Wait`; otherwise the
      tasks run and the last error they recorded, if any, is returned. */
  method SubmitAndWait(d: Downloader, localPath: string, remotePath: string, bucketName: string, recursive: bool,
                       versionId: string, noCheck: bool, cwd: string, stat: Stat, listing: Result<seq<string>>,
                       dirs: DirRegistry, mkdir: string -> Option<Error>, fetch: GetRequest -> Fetch)
    returns (err: Option<Error>)
    requires dirs.Valid() && d.worker.queue == [] && d.worker.lasterror == None
    requires listing.Ok? ==> ListedUnder(TrimSuffix(remotePath, "/"), listing.value)
    modifies d.worker, dirs
    ensures dirs.Valid()
    ensures var plan := SubmitPlan(localPath, remotePath, bucketName, recursive, versionId, noCheck, cwd, stat, listing);
            (plan.0.Some? ==>
               err == Some(SubmitFailed(plan.0.value)) && d.worker.queue == plan.1 &&
               dirs.entries == old(dirs.entries)) &&
            (plan.0 == None ==>
               var run := RunTasks(old(dirs.entries), plan.1, mkdir, fetch);
               d.worker.queue == [] && dirs.entries == run.0 && err == ExitError(LastOf(None, run.1)))
  {
    ghost var plan := SubmitPlan(localPath, remotePath, bucketName, recursive, versionId, noCheck, cwd, stat, listing);
    var e := d.Submit(localPath, remotePath, bucketName, recursive, versionId, noCheck, cwd, stat, listing);
    if e.Some? {
      return Some(SubmitFailed(e.value));
    }
    assert d.worker.queue == plan.1;
    err := WaitAndReport(d, dirs, mkdir, fetch);
  }

  /** `Wait`, then the last error recorded. */
  method WaitAndReport(d: Downloader, dirs: DirRegistry, mkdir: string -> Option<Error>, fetch: GetRequest -> Fetch)
    returns (err: Option<Error>)
    requires dirs.Valid() && d.worker.lasterror == None
    modifies d.worker, dirs
    ensures dirs.Valid() && d.worker.queue == []
    ensures var run := RunTasks(old(dirs.entries), old(d.worker.queue), mkdir, fetch);
            dirs.entries == run.0 && err == ExitError(LastOf(None, run.1))
  {
    d.Wait(dirs, mkdir, fetch);
    var last := d.worker.GetLastErr();
    err := ExitError(last);
  }

  // ---------------------------------------------------------------------
  // put

  /** What `Submit` does for one source of `put`: its error, and the
      tasks it queued. */
  function SourcePlans(remoteDirPath: string, bucket: string, stat: string -> Stat, walk: string -> seq<WalkEntry>)
    : string -> (Option<Error>, seq<UploadTask>)
  {
    src => UploadPlan(src, remoteDirPath, bucket, stat(src), walk(src))
  }

  /** The `Submit`s of `put`, one per source in argument order, up to the
      first that fails: its error, and the tasks queued until then. */
  function PutPlan(sources: seq<string>, submit: string -> (Option<Error>, seq<UploadTask>))
    : (Option<Error>, seq<UploadTask>)
    decreases |sources|
  {
    if sources == [] then (None, [])
    else
      var (err, tasks) := PutPlan(sources[..|sources| - 1], submit);
      if err.Some? then (err, tasks)
      else
        var (e, ts) := submit(sources[|sources| - 1]);
        (e, tasks + ts)
  }

  /** The tasks of every source, in argument order. */
  function AllTasks(sources: seq<string>, submit: string -> (Option<Error>, seq<UploadTask>)): seq<UploadTask>
    decreases |sources|
  {
    if sources == [] then []
    else AllTasks(sources[..|sources| - 1], submit) + submit(sources[|sources| - 1]).1
  }

  /** The position of the first source whose `Submit` fails, or -1. */
  function FirstFailed(sources: seq<string>, submit: string -> (Option<Error>, seq<UploadTask>)): (i: int)
    ensures -1 <= i < |sources|
    ensures i >= 0 ==> submit(sources[i]).0.Some?
    ensures forall j :: 0 <= j < |sources| && (i < 0 || j < i) ==> submit(sources[j]).0 == None
    decreases |sources|
  {
    if sources == [] then -1
    else
      var n := |sources| - 1;
      var i := FirstFailed(sources[..n], submit);
      if i >= 0 then i
      else if submit(sources[n]).0.Some? then n
      else -1
  }

  /** `put` submits the sources in order and stops at the first that
      fails, returning its error with the tasks of the sources before it
      and those the failing `Submit` itself queued; when none fails, the
      tasks are those of every source, in argument order. */
  lemma {:induction false} PutPlanSpec(sources: seq<string>, submit: string -> (Option<Error>, seq<UploadTask>))
    ensures var i := FirstFailed(sources, submit);
            var r := PutPlan(sources, submit);
            (i < 0 ==> r == (None, AllTasks(sources, submit))) &&
            (i >= 0 ==> r == (submit(sources[i]).0, AllTasks(sources[..i], submit) + submit(sources[i]).1))
    decreases |sources|
  {
    if sources != [] {
      var n := |sources| - 1;
      var ss := sources[..n];
      PutPlanSpec(ss, submit);
      if FirstFailed(ss, submit) >= 0 {
        assert sources[..FirstFailed(ss, submit)] == ss[..FirstFailed(ss, submit)];
      } else {
        assert sources[..n] == ss;
      }
    }
  }

  /** One more source, submitted while no earlier one has failed. */
  lemma PutPlanSnoc(sources: seq<string>, submit: string -> (Option<Error>, seq<UploadTask>), i: nat)
    requires i < |sources| && PutPlan(sources[..i], submit).0 == None
    ensures PutPlan(sources[..i + 1], submit) ==
              (submit(sources[i]).0, PutPlan(sources[..i], submit).1 + submit(sources[i]).1)
  {
    assert sources[..i + 1][..i] == sources[..i];
  }

  /** Once a source has failed, the sources after it are not submitted. */
  lemma {:induction false} PutPlanStops(sources: seq<string>, submit: string -> (Option<Error>, seq<UploadTask>), i: nat)
    requires i <= |sources|
    requires PutPlan(sources[..i], submit).0.Some?
    ensures PutPlan(sources, submit) == PutPlan(sources[..i], submit)
    decreases |sources| - i
  {
    if i < |sources| {
      var ss := sources[..|sources| - 1];
      assert ss[..i] == sources[..i];
      PutPlanStops(ss, submit, i);
    } else {
      assert sources[..i] == sources;
    }
  }

  /** `put source... S3URI`. `parse` stands for `url.Parse`; `stat(p)` and
      `walk(p)` are what `os.Stat` and `filepath.WalkDir` report for the
      source `p`; `send` is what opening and putting report per put. The
      uploader created is returned so that its state can be stated. */
  method RunPut(args: seq<string>, parse: string -> Result<Url>, jobsFlag: int, env: string, cpu: int,
                client: Result<Client>, stat: string -> Stat, walk: string -> seq<WalkEntry>,
                send: PutRequest -> Send)
    returns (err: Option<Error>, u: S3Uploader?)
    ensures |args| < 1 ==> err == Some(NoSources) && u == null
    ensures |args| >= 1 && ParseS3URI(parse(args[|args| - 1])).Err? ==>
              err == Some(InvalidUri(ParseS3URI(parse(args[|args| - 1])).error)) && u == null
    ensures |args| >= 1 && ParseS3URI(parse(args[|args| - 1])).Ok? && client.Err? ==>
              err == Some(CreateFailed(client.error)) && u == null
    ensures u != null ==> fresh(u) && u.jobs == ValidateWorkerCount(cpu, RequestedJobs(jobsFlag, env, cpu)).0
    ensures |args| >= 1 && ParseS3URI(parse(args[|args| - 1])).Ok? && client.Ok? ==> u != null
    ensures u != null ==>
              var loc := ParseS3URI(parse(args[|args| - 1])).value;
              var plan := PutPlan(args[..|args| - 1], SourcePlans(loc.remotePath, loc.bucket, stat, walk));
              (plan.0.Some? ==> err == Some(SubmitFailed(plan.0.value)) && u.queue == plan.1) &&
              (plan.0 == None ==>
                 u.queue == [] && err == ExitError(LastOf(None, RunUploads(plan.1, Upload.Outcome(send)))))
  {
    var argc := |args|;
    if argc < 1 {
      return Some(NoSources), null;
    }
    var uriStr := args[argc - 1];
    var parsed := ParseS3URI(parse(uriStr));
    if parsed.Err? {
      return Some(InvalidUri(parsed.error)), null;
    }
    var bucketName, remoteDirPath := parsed.value.bucket, parsed.value.remotePath;
    var nJobs := ResolveJobs(jobsFlag, env, cpu);
    var uploader, e := NewS3Uploader(nJobs, client);
    if e.Some? {
      return Some(CreateFailed(e.value)), null;
    }
    u := uploader;
    ghost var submit := SourcePlans(remoteDirPath, bucketName, stat, walk);
    err := SubmitAllAndWait(u, args[..argc - 1], remoteDirPath, bucketName, stat, walk, send, submit);
  }

  /** `submit` gives, for every source, what `Submit` does with it. */
  ghost predicate PlansSources(submit: string -> (Option<Error>, seq<UploadTask>), remoteDirPath: string,
                               bucket: string, stat: string -> Stat, walk: string -> seq<WalkEntry>)
  {
    forall p {:trigger stat(p)} :: submit(p) == UploadPlan(p, remoteDirPath, bucket, stat(p), walk(p))
  }

  /** The end of `put`: the sources are submitted to a fresh uploader; a
      `Submit` error is returned at once, without `Wait`; otherwise the
      uploads run and the last error they recorded, if any, is returned. */
  method SubmitAllAndWait(u: S3Uploader, sources: seq<string>, remoteDirPath: string, bucketName: string,
                          stat: string -> Stat, walk: string -> seq<WalkEntry>, send: PutRequest -> Send,
                          ghost submit: string -> (Option<Error>, seq<UploadTask>))
    returns (err: Option<Error>)
    requires u.queue == [] && u.lasterror == None
    requires PlansSources(submit, remoteDirPath, bucketName, stat, walk)
    modifies u
    ensures var plan := PutPlan(sources, submit);
            (plan.0.Some? ==> err == Some(SubmitFailed(plan.0.value)) && u.queue == plan.1) &&
            (plan.0 == None ==>
               u.queue == [] && err == ExitError(LastOf(None, RunUploads(plan.1, Upload.Outcome(send)))))
  {
    ghost var plan := PutPlan(sources, submit);
    var e := SubmitSources(u, sources, remoteDirPath, bucketName, stat, walk, submit);
    if e.Some? {
      return Some(SubmitFailed(e.value));
    }
    assert u.queue == plan.1;
    u.Wait(send);
    var last := u.GetLastErr();
    err := ExitError(last);
  }

  /** The loop of `put` over its sources: each is submitted in turn, and
      the first `Submit` error ends the loop and is returned. */
  method SubmitSources(u: S3Uploader, sources: seq<string>, remoteDirPath: string, bucketName: string,
                       stat: string -> Stat, walk: string -> seq<WalkEntry>,
                       ghost submit: string -> (Option<Error>, seq<UploadTask>))
    returns (err: Option<Error>)
    requires PlansSources(submit, remoteDirPath, bucketName, stat, walk)
    modifies u`queue
    ensures err == PutPlan(sources, submit).0 && u.queue == old(u.queue) + PutPlan(sources, submit).1
  {
    var i := 0;
    while i < |sources|
      invariant 0 <= i <= |sources|
      invariant PutPlan(sources[..i], submit).0 == None
      invariant u.queue == old(u.queue) + PutPlan(sources[..i], submit).1
    {
      PutPlanSnoc(sources, submit, i);
      var e := SubmitSource(u, sources[i], remoteDirPath, bucketName, stat, walk, submit);
      if e.Some? {
        PutPlanStops(sources, submit, i + 1);
        return e;
      }
      i := i + 1;
    }
    assert sources[..i] == sources;
    err := None;
  }

  /** One source of `put`: its `Submit`. */
  method SubmitSource(u: S3Uploader, localPath: string, remoteDirPath: string, bucketName: string,
                      stat: string -> Stat, walk: string -> seq<WalkEntry>,
                      ghost submit: string -> (Option<Error>, seq<UploadTask>))
    returns (err: Option<Error>)
    requires PlansSources(submit, remoteDirPath, bucketName, stat, walk)
    modifies u`queue
    ensures err == submit(localPath).0 && u.queue == old(u.queue) + submit(localPath).1
  {
    err := u.Submit(localPath, remoteDirPath, bucketName, stat(localPath), walk(localPath));
  }
}
