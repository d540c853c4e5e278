/** pkg/lib.go: a stale copy of the first library inside package `pkg`. Its
    `ParseS3URI`, `doDownload` and non-recursive `DownloadObjects` branch
    are those of lib.go, modelled once in `LegacyLib`; what differs is the
    recursive branch, which starts one goroutine per listed key and waits
    for all of them. Here the goroutines run one after the other, in the
    order they were started. */
module StaleLib {
  import opened Types
  import opened GoStrings
  import opened GoPath
  import Common
  import Download
  import LegacyLib

  /** The remote path is not checked: "s3://b/../x" is accepted with the
      remote path "../x", which the parser of pkg/common.go refuses. */
  lemma TraversalRemotePathAccepted()
    ensures LegacyLib.ParseS3URI(Ok(Url("s3", "b", "/../x"))) == Ok(S3Location("b", "../x"))
    ensures Common.ParseS3URI(Ok(Url("s3", "b", "/../x"))).Err?
  {
    assert ToLower("s3") == "s3";
    assert "/../x"[1..] == "../x";
    Common.ParseRejectsTraversalKey();
  }

  /** `DownloadObjects`, with the listing, the `os.MkdirAll` results and the
      object store's answers given: returns the error, the copies made, the
      files written and what was logged. */
  method DownloadObjects(localPath: string, remotePath: string, bucket: string, recursive: bool, stat: Stat,
                         listing: Result<seq<string>>, mkdir: string -> Option<Error>,
                         fetch: Download.GetRequest -> Download.Fetch)
    returns (err: Option<Error>, tasks: seq<Download.DownloadTask>, written: seq<string>, logged: seq<Error>)
    ensures (err, tasks) == LegacyLib.DownloadPlan(localPath, remotePath, bucket, recursive, stat, listing, fetch)
    ensures written == LegacyLib.Written(tasks, fetch)
    ensures logged == if recursive then LegacyLib.Logged(tasks, mkdir, fetch) else []
  {
    if !recursive {
      err, tasks, written := LegacyLib.DownloadSingle(localPath, remotePath, bucket, stat, fetch);
      return err, tasks, written, [];
    }
    if stat.Exists? && !stat.isDir {
      return Some(IsAFile(localPath)), [], [], [];
    }
    if listing.Err? {
      return Some(listing.error), [], [], [];
    }
    tasks := Spawn(listing.value, LegacyLib.KeyCopies(bucket, localPath));
    written, logged := WaitAll(tasks, mkdir, fetch);
    err := None;
  }

  /** The loop over the listed keys: one goroutine per key, markers included. */
  method Spawn(keys: seq<string>, task: string -> Download.DownloadTask) returns (tasks: seq<Download.DownloadTask>)
    ensures tasks == LegacyLib.Copies(keys, task)
  {
    tasks := [];
    var i := 0;
    while i < |keys|
      invariant 0 <= i <= |keys|
      invariant tasks == LegacyLib.Copies(keys[..i], task)
    {
      assert keys[..i + 1][..i] == keys[..i];
      tasks := tasks + [task(keys[i])];
      i := i + 1;
    }
    assert keys[..i] == keys;
  }

  /** `wg.Wait`: every goroutine makes its directory, logs a failure to do
      so and downloads all the same, logging a failed download. */
  method WaitAll(tasks: seq<Download.DownloadTask>, mkdir: string -> Option<Error>,
                 fetch: Download.GetRequest -> Download.Fetch)
    returns (written: seq<string>, logged: seq<Error>)
    ensures written == LegacyLib.Written(tasks, fetch) && logged == LegacyLib.Logged(tasks, mkdir, fetch)
  {
    written, logged := [], [];
    var i := 0;
    while i < |tasks|
      invariant 0 <= i <= |tasks|
      invariant written == LegacyLib.Written(tasks[..i], fetch)
      invariant logged == LegacyLib.Logged(tasks[..i], mkdir, fetch)
    {
      var t := tasks[i];
      assert tasks[..i + 1] == tasks[..i] + [t];
      LegacyLib.CopySnoc(tasks[..i], t, mkdir, fetch);
      if t.RecursiveGet? {
        logged := logged + Errs(mkdir(t.dirPath));
      }
      var (e, created) := Download.DoDownload(fetch(LegacyLib.GetOf(t)));
      logged := logged + Errs(e);
      if created {
        written := written + [LegacyLib.Target(t)];
      }
      i := i + 1;
    }
    assert tasks[..i] == tasks;
  }

  /** Against pkg/download.go under a remote prefix with no '/' (so nothing
      is cut off the keys' directories), the stale loop copies the same
      keys to the same places exactly when no key is a directory marker;
      each marker is one copy more. */
  lemma {:induction false} MarkersMakeTheDifference(bucket: string, localPath: string, keys: seq<string>)
    ensures var current := Download.MarkerFreeTasks(keys, Download.KeyTasks(bucket, localPath, 0));
            var stale := LegacyLib.Copies(keys, LegacyLib.KeyCopies(bucket, localPath));
            ((forall i :: 0 <= i < |keys| ==> !Download.IsMarker(keys[i])) ==> current == stale) &&
            ((exists i :: 0 <= i < |keys| && Download.IsMarker(keys[i])) ==> |current| < |stale|) &&
            |current| <= |stale|
    decreases |keys|
  {
    if keys != [] {
      var n := |keys| - 1;
      var ks := keys[..n];
      MarkersMakeTheDifference(bucket, localPath, ks);
      LegacyLib.KeyTaskCurrent(bucket, localPath, keys[n]);
      assert forall i :: 0 <= i < n ==> ks[i] == keys[i];
      if exists i :: 0 <= i < |keys| && Download.IsMarker(keys[i]) {
        var i :| 0 <= i < |keys| && Download.IsMarker(keys[i]);
        if i < n {
          assert Download.IsMarker(ks[i]);
        }
      }
    }
  }
}
