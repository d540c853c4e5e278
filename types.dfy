/** Values shared by every part of the model: Go's `error` (nil is `None`),
    results of fallible calls, and the shapes in which the file system, the
    URL parser and the object store hand their answers to the core. */
module Types {

  datatype Option<+T> = None | Some(value: T)

  datatype Result<+T> = Ok(value: T) | Err(error: Error)

  /** The errors the core creates, one constructor per `fmt.Errorf` site
      (a wrapping site keeps its cause), plus `External` for an error that
      comes back from the operating system, the URL parser or the object
      store and is passed on unchanged. */
  datatype Error =
    | External(detail: string)
    | InvalidScheme(scheme: string)
    | InvalidRemotePath(cause: Error)
    | InvalidRemoteKey(key: string, cause: Error)
    | TraversalSequence(path: string)
    | TraversalPrefix(path: string)
    | EscapesBase(path: string, baseDir: string)
    | IsAFile(path: string)
    | InvalidLocalPath(cause: Error)
    | InvalidDestinationPath(cause: Error)
    | MissingArguments
    | NoSources
    | InvalidUri(cause: Error)
    | CreateFailed(cause: Error)
    | VersionWithRecursive
    | SubmitFailed(cause: Error)
    | TransferFailed(cause: Error)

  /** What `os.Stat` reported: an error, or an existing entry that is or is
      not a directory. */
  datatype Stat = StatFailed(error: Error) | Exists(isDir: bool)

  /** The record `url.Parse` produces, reduced to the three fields the core reads. */
  datatype Url = Url(scheme: string, host: string, path: string)

  /** A handle on a configured object-store client; its internals are not modelled. */
  datatype Client = Client(region: string)

  /** One call of the `filepath.WalkDir` callback: an entry with its walked
      path, or an error the walk passes to the callback. */
  datatype WalkEntry = Entry(path: string, isDir: bool) | WalkError(error: Error)

  /** Where an object lives once an S3 URI is parsed. */
  datatype S3Location = S3Location(bucket: string, remotePath: string)

  /** The error slot after a sequence of overwrite-only writes: the last
      write, or the initial value when there was none. */
  function LastOf(init: Option<Error>, writes: seq<Error>): Option<Error>
  {
    if writes == [] then init else Some(writes[|writes| - 1])
  }

  /** Writes made in two rounds leave what the last write of both rounds left. */
  lemma LastOfAppend(init: Option<Error>, a: seq<Error>, b: seq<Error>)
    ensures LastOf(LastOf(init, a), b) == LastOf(init, a + b)
  {
    if b != [] {
      assert (a + b)[|a + b| - 1] == b[|b| - 1];
    } else {
      assert a + b == a;
    }
  }

  /** The slot stays empty exactly when it started empty and nothing was written. */
  lemma LastOfEmpty(init: Option<Error>, writes: seq<Error>)
    ensures LastOf(init, writes) == None <==> init == None && writes == []
  {
  }

  /** A failure as it reaches `SetLastErr`. */
  function Errs(err: Option<Error>): seq<Error> {
    if err.Some? then [err.value] else []
  }
}
