# tinys3cli, modelled in Dafny

tinys3cli is a small command-line client for S3-compatible object stores. It has two commands:

- `get` downloads one object, or every object under a prefix.
- `put` uploads files and directory trees.

Both commands turn their arguments into a list of transfer tasks and hand the tasks to a worker pool. They wait for the pool and then report the last error a worker recorded.

This project models the core of the program:

- `pkg/common.go`: parsing of `s3://bucket/key` URIs, and the path checks that keep downloads inside the chosen local directory.
- `pkg/config.go`: the worker count. It takes the default, maximum and environment variable into account and clamps the value into range.
- `pkg/worker.go`: the worker base that holds the client, the pool and the last error.
- `pkg/download.go`: planning and running downloads. This covers single objects and recursive listings, directory-marker keys, per-directory `mkdir` run once, and validation of every key.
- `pkg/upload.go`: planning and running uploads. This covers single files and directory walks, and the object key built from the remote prefix and the relative name.
- `cmd/get.go` and `cmd/put.go`: argument handling, the job-count precedence, submission and exit errors.
- `lib.go`: the older top-level library. It parses without validation, starts one goroutine per walked file when uploading a directory (the model runs them in walk order), and downloads with a plain loop.
- `pkg/lib.go`: a stale copy of that library. It starts one goroutine per key.

Modules follow the source files: `Common`, `Config`, `Worker`, `Download`, `Upload`, `Cmd`, `LegacyLib` and `StaleLib`. Three helper modules support them:

- `Types` holds the shared results and errors.
- `GoStrings` holds the subset of Go's `strings` package used by the core.
- `GoPath` models `path.Clean`, `path.Join`, `path.Split`, `filepath.Abs` and `filepath.Rel` on '/'-separated strings. Cleaning is a fold over path segments.

Everything the program gets from outside is a parameter of the model:

- S3 answers, `os.Stat`, `os.MkdirAll`, file create/copy outcomes, and the order of `filepath.WalkDir`;
- `url.Parse`, `runtime.NumCPU`, `os.Getenv` and `os.Getwd`.

The worker pool is a FIFO queue of tasks. `Wait` runs the tasks one after another, in the order they were submitted. The code's pool instead starts each task as it is submitted and runs several at once; "## Left out" says what that changes.

A few points where the code behaves in ways a reader may not expect:

- **Recursive `get` keeps the listed directory.** With `get s3://bucket/dir/ ./out --recursive`, the code trims the remote path to `dir`. That path holds no '/', so the cut-off prefix is empty, and key `dir/a.txt` is written to `out/dir/a.txt`: the listed directory's own name is kept below the local directory. See `Download.CalcRemoteDirPrefixSpec` and `Download.KeyTask`.
- **Arity of `ValidatePath` in downloads.** `pkg/download.go` calls `ValidatePath` with two arguments, while `pkg/common.go` declares three. `cmd/get.go` passes a `noLocalPathCheck` flag to `Submit`. The model threads that flag through `Download.Downloader.Submit`; `false` is the behaviour the two-argument calls evidently mean.
- **Missing uploader names in `cmd/put.go`.** It calls `NewUploader` and a four-argument `Submit`, neither of which exists. The model uses `NewS3Uploader` and the three-argument `Submit` of `pkg/upload.go`; the uploader has no path check, so the flag has no effect on `put`.

## Model

| member | source | states |
|---|---|---|
| Common.ValidatePath | pkg/common.go:77-109 | with the check switched off every path passes; a path that passes has neither a traversal sequence nor a leading ".." |
| Common.ValidateRejectsTraversal | pkg/common.go:85-87 | a path containing "../" or "..\\" is refused with the traversal error, whatever the base directory |
| Common.ValidateRejectsDotDotPrefix | pkg/common.go:89-91 | a path starting with ".." is always refused, and with the prefix error when it has no traversal sequence |
| Common.ValidateEmptyBase | pkg/common.go:93-108 | with no base directory only the string checks decide, and the working directory plays no part |
| Common.ValidateConfines | pkg/common.go:93-106 | a path accepted against a base directory resolves, joined to the absolute base, to a location inside that base |
| Common.ValidateBaseIff | pkg/common.go:93-106 | for a path passing the string checks, the base check accepts exactly when the joined path stays inside the base |
| Common.ParseS3URISpec | pkg/common.go:36-56 | a URI parses exactly when its scheme is s3 (either case) and its remote path passes the checks; the result is the host as bucket and the path without its leading '/'; any other scheme gives the scheme error |
| Common.ParseRejectsTraversalKey | pkg/common.go:51-53 | "s3://b/../x" is refused because its remote path holds "../" |
| Config.DefaultWorkerCount | pkg/config.go:15-21 | the default job count is at least two |
| Config.MaxWorkerCount | pkg/config.go:24-30 | the maximum job count is at least ten |
| Config.DefaultWithinMax | pkg/config.go:15-30 | the default lies between the minimum and the maximum for every CPU count |
| Config.Atoi | pkg/config.go:39-43 | a parsed value fits in a signed 64-bit integer |
| Config.AtoiItoa | pkg/config.go:39-43 | parsing the decimal rendering of any 64-bit integer gives it back |
| Config.AtoiRejectsNonDigit | pkg/config.go:39-43 | a string with a non-digit anywhere except a leading sign does not parse |
| Config.AtoiRejectsBareSign | pkg/config.go:39-43 | "+" and "-" alone do not parse |
| Config.WorkerCountFromEnv | pkg/config.go:34-45 | a non-empty variable that parses gives the parsed number; an unparsable variable gives zero |
| Config.EnvReadsCount | pkg/config.go:34-45 | the variable set to the rendering of a count reads back as that count |
| Config.ValidateWorkerCount | pkg/config.go:49-60 | the result lies in range; it has no warning exactly when the count is kept; a count in range is kept without warning; below the minimum it is clamped up, above the maximum clamped down, each with its warning |
| Config.ValidateIdempotent | pkg/config.go:49-60 | validating a validated count keeps it and warns about nothing |
| Worker.BaseWorker.constructor | pkg/worker.go:27-31 | a new worker holds the client and job count, an empty queue and no last error |
| Worker.NewBaseWorker | pkg/worker.go:22-32 | a client error returns no worker and that error; otherwise a fresh worker with an empty queue |
| Worker.BaseWorker.GetLastErr | pkg/worker.go:35-37 | returns the recorded error |
| Worker.BaseWorker.SetLastErr | pkg/worker.go:40-44 | records the given error and leaves the queue alone |
| Worker.BaseWorker.Enqueue | pkg/download.go:148 | a submitted task goes to the back of the queue |
| Worker.BaseWorker.Dequeue | pkg/worker.go:47-49 | the task at the front of the queue is taken off it |
| Download.CalcRemoteDirPrefixSpec | pkg/download.go:66-75 | the prefix is everything before the trimmed remote path's last '/', empty when there is none, and its length is returned beside it |
| Download.Memo | pkg/download.go:77-88 | a directory already seen returns its recorded result and changes nothing; a new one is made once and recorded; no other entry changes |
| Download.MemoStable | pkg/download.go:82-87 | asking for the same directory again returns the first result and does not call mkdir again |
| Download.DirRegistry.constructor | pkg/download.go:64 | the directory map starts empty |
| Download.DirRegistry.EnsureDir | pkg/download.go:77-88 | the map is updated as Memo says, and mkdir is logged exactly for directories not seen before |
| Download.DoDownload | pkg/download.go:21-62 | the download succeeds exactly when get, create and copy all succeed; a file is left behind exactly when get and create succeed; a get error is returned before anything is created |
| Download.KeyTask | pkg/download.go:148-159 | every listed key becomes a recursive get of that key from that bucket |
| Download.FirstRejected | pkg/download.go:136-146 | finds the first key whose relative path fails validation, with all earlier keys accepted |
| Download.ExpandSpec | pkg/download.go:136-165 | without a refused key, every non-marker key is queued in order; otherwise the keys before the first refused one are queued and its error is returned |
| Download.ExpandSticky | pkg/download.go:144-146 | once a key is refused, later keys change nothing |
| Download.ExpandTasksFrom | pkg/download.go:136-165 | every queued task comes from a listed, accepted key that is not a directory marker |
| Download.ListedKeysFit | pkg/download.go:143-146 | keys listed under the remote path are long enough to have the remote prefix cut off |
| Download.RecursiveRefusals | pkg/download.go:119-126 | a recursive get into an existing file, or into a local path that fails the checks, is refused before anything is queued |
| Download.SinglePlanSpec | pkg/download.go:167-191 | a single get targets the local path, or the object's file name inside it when it is a directory; it is refused exactly when that name or the destination fails the checks, and queues one task otherwise |
| Download.RecursivePlanSpec | pkg/download.go:116-165 | a recursive get into an acceptable place queues the non-marker keys up to the first key refused, and reports that key |
| Download.SkippedCheckAcceptsAll | pkg/download.go:124-126 | with the check switched off, only an existing file as destination is refused and every non-marker key is queued |
| Download.KeySlices | pkg/download.go:143-150 | cutting the remote prefix off a key splits into the remaining directory part, ending in '/', followed by the file name |
| Download.JoinTwice | pkg/download.go:150-159 | joining the directory part and then the file name resolves to the same place as joining the whole relative key once |
| Download.KeyTaskConfined | pkg/download.go:143-159 | a key whose relative path passes validation is downloaded to a place inside the local directory |
| Download.SubmitConfined | pkg/download.go:116-165 | every task a recursive get queues writes inside the local directory |
| Download.RecursiveTasks | pkg/download.go:116-165 | a recursive get queues nothing, or exactly the tasks the key loop produces from the listing |
| Download.ExpandConfined | pkg/download.go:136-165 | every task the key loop produces writes inside the local directory |
| Download.MkdirFailureSkipsDownload | pkg/download.go:151-156 | when making the directory fails, the object is not fetched and only that error is recorded |
| Download.RunTasksMemo | pkg/download.go:77-88 | running tasks never changes a recorded directory result, and every new entry is that directory's mkdir result |
| Download.Downloader.constructor | pkg/download.go:91-93 | the downloader wraps the given worker |
| Download.Downloader.Submit | pkg/download.go:105-195 | returns the plan's error and appends exactly the plan's tasks to the queue |
| Download.Downloader.SubmitRecursive | pkg/download.go:116-165 | the recursive branch returns its plan's error and queues its plan's tasks |
| Download.Downloader.SubmitSingle | pkg/download.go:167-191 | the single-object branch returns its plan's error and queues its plan's task |
| Download.Downloader.EnqueueKeys | pkg/download.go:136-165 | the key loop returns the first refusal and queues the tasks before it, skipping markers |
| Download.Downloader.RunTask | pkg/download.go:148-164 | one task updates the directory map and the last error as one step of the run says |
| Download.Downloader.Wait | pkg/worker.go:47-49 | with tasks run one at a time, every queued task runs in order, the queue is drained, the mkdir log only grows, and the last error is the last one recorded |
| Download.NewDownloader | pkg/download.go:96-102 | a client error returns no downloader; otherwise a fresh downloader with an empty queue |
| Upload.UploadKeySpec | pkg/upload.go:34-39 | with no remote prefix the key is the name; otherwise it is the cleaned join of prefix and name, rooted exactly when the prefix is |
| Upload.DoUpload | pkg/upload.go:22-48 | an upload succeeds exactly when the file opens and the put succeeds; an open error comes first |
| Upload.FileNameSlash | pkg/upload.go:128 | a file name holds a '/' only when it is "/" itself |
| Upload.FileNameSplit | pkg/upload.go:128 | for a path without a trailing '/', the file name is the last element of the path |
| Upload.FirstWalkError | pkg/upload.go:106-110 | finds the first walk error, with all earlier entries ordinary |
| Upload.WalkSpec | pkg/upload.go:106-125 | without a walk error every regular file is queued in order; otherwise the files before the first error are queued and that error is returned |
| Upload.WalkSticky | pkg/upload.go:107-110 | after a walk error, later entries change nothing |
| Upload.WalkTasksFrom | pkg/upload.go:112-120 | every queued upload comes from a walked regular file, with the walk prefix cut off its name |
| Upload.StatFailureQueuesNothing | pkg/upload.go:86-89 | a failed stat returns its error and queues nothing |
| Upload.SingleFileTask | pkg/upload.go:126-133 | a plain file is queued once, under its base name, and that name holds no '/' |
| Upload.DirectoryTasks | pkg/upload.go:97-125 | a directory is walked with its parent cut off each file's path, up to the first walk error |
| Upload.NamesRebuildPaths | pkg/upload.go:98-115 | the cut-off part followed by the name gives back each file's path; below a parent, names start with '/' |
| Upload.WalkNames | pkg/upload.go:112-115 | for any prefix of the walked root, prefix followed by name gives back the file's path |
| Upload.UncleanRootLosesName | pkg/upload.go:97-115 | with root "./././a", whose child the walk reports as "a/x", the model queues that file with an empty name, where the code's slice is out of range |
| Upload.LeadingSlashKey | pkg/upload.go:97-115 | uploading a nested directory to the bucket root gives keys that start with '/' |
| Upload.RunUploadsClean | pkg/upload.go:114-120 | a run records no error exactly when every upload succeeds |
| Upload.S3Uploader.constructor | pkg/upload.go:64 | a new uploader holds the client and job count, an empty queue and no last error |
| Upload.S3Uploader.GetLastErr | pkg/upload.go:68-70 | returns the recorded error |
| Upload.S3Uploader.SetLastErr | pkg/upload.go:73-77 | records the given error |
| Upload.S3Uploader.Submit | pkg/upload.go:85-137 | returns the plan's error and appends exactly the plan's tasks to the queue |
| Upload.S3Uploader.RunTask | pkg/upload.go:114-120 | a failed upload becomes the last error; a successful one leaves it |
| Upload.S3Uploader.Wait | pkg/upload.go:80-82 | every queued upload is run in order, the queue is drained, and the last error is the last failure |
| Upload.WaitCleanIff | pkg/upload.go:80-82 | waiting ends without error exactly when there was none before and every upload succeeded |
| Upload.NewS3Uploader | pkg/upload.go:59-65 | a client error returns no uploader; otherwise a fresh uploader with an empty queue |
| Cmd.RequestedJobs | cmd/get.go:33-41 | a positive flag wins, then a positive environment value, then the default |
| Cmd.ResolveJobs | cmd/get.go:33-46 | the job count used is the requested one clamped into range |
| Cmd.JobsPrecedence | cmd/put.go:30-43 | an in-range flag is used as given, a too-large flag is capped, an in-range variable is used without a flag, and an unparsable variable without a flag gives the default |
| Cmd.ExitError | cmd/get.go:75-78 | the command fails exactly when the last-error slot is set |
| Cmd.RunGet | cmd/get.go:18-79 | missing arguments, a bad URI or a client failure stop before anything is queued; a version with recursion is refused; otherwise the plan is submitted and, if it succeeds, run to completion, exiting with the last recorded error |
| Cmd.SubmitAndWait | cmd/get.go:63-78 | a refused plan returns its error without waiting, with the tasks queued before the refusal still pending in the model; an accepted one runs all its tasks in order and reports the last recorded error |
| Cmd.WaitAndReport | cmd/get.go:74-78 | waiting drains the queue and reports the last recorded error |
| Cmd.FirstFailed | cmd/put.go:51-56 | finds the first source whose submission fails, with all earlier ones successful |
| Cmd.PutPlanSpec | cmd/put.go:51-56 | sources are submitted in order until the first failure, whose tasks are queued too and whose error is returned |
| Cmd.PutPlanSnoc | cmd/put.go:51-56 | after successful sources, one more source adds its error and its tasks |
| Cmd.PutPlanStops | cmd/put.go:53-55 | after a failed source, later sources change nothing |
| Cmd.RunPut | cmd/put.go:18-64 | no sources, a bad URI or a client failure stop before anything is queued; otherwise the sources are submitted in order and, if none fails, every upload runs, exiting with the last failure |
| Cmd.SubmitAllAndWait | cmd/put.go:51-63 | a failed submission returns its error without waiting, with the tasks queued so far still pending in the model; otherwise every upload runs |
| Cmd.SubmitSources | cmd/put.go:51-56 | the loop returns the put plan's error and queues its tasks |
| Cmd.SubmitSource | cmd/put.go:52 | one source is submitted as its upload plan says |
| LegacyLib.ParseS3URISpec | lib.go:33-51 | a URI parses exactly when its scheme is s3 (either case), with the path passed through unchecked; a parse error is passed on |
| LegacyLib.ValidationAdded | lib.go:44-49 | the newer parser agrees with this one except that it refuses remote paths failing the checks |
| LegacyLib.UploadKeySpec | lib.go:75-80 | the key is the name below the remote prefix and a '/', uncleaned; the newer key is its cleaned form |
| LegacyLib.WalkUploadsFullPaths | lib.go:94-112 | the walk uploads every regular file under its full walked path, as the newer walk does with nothing cut off |
| LegacyLib.FileUpload | lib.go:115-117 | a plain file is uploaded at once under its base name, and its outcome is the result |
| LegacyLib.DirectoryUploads | lib.go:92-114 | a directory walk returns only the first walk error; upload outcomes are printed and do not change the result |
| LegacyLib.UploadObjects | lib.go:86-118 | the sequential upload returns the error and uploads its plan describes |
| LegacyLib.WalkUploadsSticky | lib.go:95-98 | after a walk error, later entries change nothing |
| LegacyLib.LastFieldSpec | lib.go:170-171 | the last '/'-separated field is the path's file name, empty after a trailing '/' |
| LegacyLib.CopiesSpec | lib.go:154-167 | the key loop makes one copy per listed key, in order |
| LegacyLib.KeyTaskCurrent | lib.go:156-162 | each key goes where the newer downloader puts it with no prefix cut off |
| LegacyLib.MarkerTargetsItsDirectory | lib.go:156-162 | a directory-marker key is fetched onto its own directory path |
| LegacyLib.WrittenSpec | lib.go:120-137 | every file left behind belongs to a task whose get and create succeeded; when all do, every target is left behind in order |
| LegacyLib.LoggedSpec | lib.go:158-166 | nothing is logged exactly when every mkdir and every download succeeds |
| LegacyLib.RecursiveDownloads | lib.go:140-182 | a recursive download fails only for an existing file or a failed listing, copies every key, and its result does not depend on download outcomes |
| LegacyLib.SingleDownload | lib.go:169-180 | a single download targets the local path, or the key's last field inside it when it is a directory, and returns that download's error |
| LegacyLib.DownloadObjects | lib.go:139-183 | returns the plan's error and copies, the files written and the errors logged |
| LegacyLib.CopyKeys | lib.go:154-167 | the key loop copies every key, logging failed mkdirs and downloads |
| LegacyLib.DownloadSingle | lib.go:170-179 | the single branch makes its one copy and returns its error |
| StaleLib.TraversalRemotePathAccepted | pkg/lib.go:34-52 | "s3://b/../x" is accepted with remote path "../x", which the newer parser refuses |
| StaleLib.DownloadObjects | pkg/lib.go:87-146 | with the goroutines run one at a time, in the order they were started, it ends in the same error, copies, written files and log as the sequential loop of lib.go |
| StaleLib.Spawn | pkg/lib.go:110-129 | one goroutine is started per listed key, in order |
| StaleLib.WaitAll | pkg/lib.go:112-130 | waiting runs every copy, logging failed mkdirs and downloads |
| StaleLib.MarkersMakeTheDifference | pkg/lib.go:110-123 | with no remote prefix cut off, the stale loop makes the newer downloader's copies exactly when no key is a directory marker, and one more per marker otherwise |

## Left out

- Concurrency: the worker pool, goroutines, `sync.WaitGroup`, mutexes, and the atomicity of `sync.Once` and `sync.Map` are not modelled. Tasks run one at a time in submission order. Under real concurrency the last error is whichever failure finished last.
- Download.Downloader.RunTask: each recursive task keeps its error in a variable of its own. In the code, the closures of `pkg/download.go` assign `err = ensureDir(...)` (line 151) and `err = doDownload(...)` (line 159) to the one `err` declared at line 119, shared by every queued task; `pkg/upload.go` uses a local `err2` instead. Under the pool, another task's nil can overwrite a failed download's error before line 160 tests it, so the failure is never recorded and `get -r` exits without error with a file missing; another task's mkdir error can also make a task return at line 155 without downloading. The model does not capture this race, so Cmd.ExitError's "fails exactly when" only holds for the one-at-a-time run. The shared error variable of `pkg/lib.go` is raced on in the same way.
- Cmd.SubmitAndWait: the pool starts each task when it is submitted (`wp.Submit`, `pkg/download.go` lines 148 and 185, `pkg/upload.go` lines 114 and 127). When a later submission is refused, the command returns without calling `Wait` (`cmd/get.go` lines 71-73, `cmd/put.go` lines 53-55), and tasks submitted before the refusal may have run fully, partly or not at all; they may have made directories and written files. The model runs none of them: they stay queued, and the directory map is unchanged. The same holds for Cmd.SubmitAllAndWait, Cmd.RunGet and Cmd.RunPut.
- Download.Downloader.Wait: sequential, in FIFO order, for the reason above. The same holds for Upload.S3Uploader.Wait and StaleLib.WaitAll.
- S3 and the AWS SDK: `CreateClient`, `GetObject`, `PutObject` and `ListObjectsV2` are outcome parameters. Listing pagination is folded into one key sequence, and its order is taken as given.
- Filesystem calls (`os.Stat`, `os.MkdirAll`, `os.Create`, `os.Open`, `io.Copy`, `filepath.WalkDir`) are outcome parameters. The walk's own path cleaning and its visiting order are taken as given.
- Download.DoDownload: close errors are not modelled, and neither does the code report them: the deferred `errors.Join` assigns to a local variable after the unnamed result has already been fixed by `return err`, so the code discards them. The "file left behind" flag models a created file that is not removed.
- `url.Parse` is a parameter: the model starts from its scheme, host and path, or its error.
- GoStrings.ToLower: ASCII only. Go's Unicode case mapping of schemes is not modelled.
- Config.Atoi: accepts only an optional sign followed by decimal digits, limited to the signed 64-bit range. That range is the only part of `strconv.Atoi` the configuration relies on.
- `runtime.NumCPU` and `os.Getenv` are parameters.
- Common.ValidatePath: the error paths of `filepath.Abs` and `filepath.Rel` (lines 95-97 and 100-102) are not modelled. `os.Getwd` is the rooted `cwd` parameter and never fails.
- With an empty local path, a recursive download skips the base-directory check, as the code does. The confinement lemmas assume a non-empty local path.
- Windows separators: `filepath.ToSlash` is the identity.
- Logging (`log.Printf`, `fmt.Println`) is not modelled, and error messages are constructors of one `Error` datatype, not text. The legacy library's logged errors are kept as a sequence.
- `cmd/main.go`, `cmd/list.go` and `cmd/version.go` are not part of this model. The same goes for `ListObjects` and `CreateClient` in `lib.go` and `pkg/lib.go`.
- GoStrings.Drop: dropping more than a string holds gives "" where Go's slice would panic. Upload.WalkTasks reaches that case for an uncleaned root: `filepath.WalkDir` reports children with cleaned paths (`./././a` gives `a/x`), which can be shorter than the cut-off prefix. Go's `path[prefixLen:]` then panics and ends the process, while the model queues an upload with an empty name, whose key is the remote prefix alone (Upload.UncleanRootLosesName). A root such as `./a` gives a child name cut at the wrong place.
- Upload.FileName: follows the basename that `os.Stat` reports through `info.Name()`, which keeps a lone "/" and gives "" for "" (where `filepath.Base` would give ".").
- Upload.NamesRebuildPaths: assumes every walked path starts with the walked root, which `filepath.WalkDir` guarantees only for a clean root (no `.` or `..` elements, no doubled '/'). For other roots the names are not rebuilt this way; see GoStrings.Drop above. The same holds for Upload.WalkNames and Upload.LeadingSlashKey.
