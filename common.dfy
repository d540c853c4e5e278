/** pkg/common.go: the path-safety validator and the checks `ParseS3URI`
    applies once `url.Parse` has split a URI into scheme, host and path. */
module Common {
  import opened Types
  import opened GoStrings
  import opened GoPath

  /** The two string checks: no traversal sequence anywhere, no leading "..". */
  predicate PassesStringChecks(path: string) {
    !Contains(path, "../") && !Contains(path, "..\\") && !HasPrefix(path, "..")
  }

  /** `ValidatePath(path, baseDir, noLocalPathCheck)`. `filepath.ToSlash` is
      the identity on Unix; `cwd` is the working directory `filepath.Abs`
      resolves a relative `baseDir` against. With `baseDir` rooted, or with
      `cwd` rooted as the operating system guarantees, both arguments of
      `Rel` are rooted, the only case in which `filepath.Rel` succeeds here. */
  function ValidatePath(path: string, baseDir: string, noLocalPathCheck: bool, cwd: string): (r: Option<Error>)
    ensures noLocalPathCheck ==> r == None
    ensures r == None && !noLocalPathCheck ==> PassesStringChecks(path)
  {
    if noLocalPathCheck then None
    else if Contains(path, "../") || Contains(path, "..\\") then Some(TraversalSequence(path))
    else if HasPrefix(path, "..") then Some(TraversalPrefix(path))
    else if baseDir != "" then
      var absBase := Abs(cwd, baseDir);
      var absPath := Join(absBase, path);
      var relPath := Rel(absBase, absPath);
      if HasPrefix(relPath, "..") then Some(EscapesBase(path, baseDir)) else None
    else None
  }

  /** `p` lies in `base`, and the first element it adds to `base` (if any)
      does not itself start with "..": the condition the `Rel` check accepts. */
  predicate Confined(p: string, base: string) {
    var b, t := Resolved(base), Resolved(p);
    b <= t && (|t| == |b| || !HasPrefix(t[|b|], ".."))
  }

  /** Any path with a "../" or "..\" in it is rejected, whatever the base. */
  lemma ValidateRejectsTraversal(path: string, baseDir: string, cwd: string)
    requires Contains(path, "../") || Contains(path, "..\\")
    ensures ValidatePath(path, baseDir, false, cwd) == Some(TraversalSequence(path))
  {
  }

  /** Any path that starts with "..", "..foo" included, is rejected. */
  lemma ValidateRejectsDotDotPrefix(path: string, baseDir: string, cwd: string)
    requires HasPrefix(path, "..")
    ensures ValidatePath(path, baseDir, false, cwd).Some?
    ensures !Contains(path, "../") && !Contains(path, "..\\") ==>
              ValidatePath(path, baseDir, false, cwd) == Some(TraversalPrefix(path))
  {
  }

  /** With an empty base only the two string checks apply, and the working
      directory is never consulted. */
  lemma ValidateEmptyBase(path: string, cwd: string, cwd': string)
    ensures ValidatePath(path, "", false, cwd) == None <==> PassesStringChecks(path)
    ensures ValidatePath(path, "", false, cwd) == ValidatePath(path, "", false, cwd')
  {
  }

  /** A path accepted against a non-empty base resolves inside the base. */
  lemma ValidateConfines(path: string, baseDir: string, cwd: string)
    requires baseDir != ""
    requires ValidatePath(path, baseDir, false, cwd) == None
    ensures Within(Join(Abs(cwd, baseDir), path), Abs(cwd, baseDir))
  {
    var absBase := Abs(cwd, baseDir);
    RelImpliesWithin(absBase, Join(absBase, path));
  }

  /** With a non-empty base, a path that passes the string checks is
      accepted exactly when it resolves to a confined place. */
  lemma ValidateBaseIff(path: string, baseDir: string, cwd: string)
    requires baseDir != "" && PassesStringChecks(path)
    ensures ValidatePath(path, baseDir, false, cwd) == None <==>
              Confined(Join(Abs(cwd, baseDir), path), Abs(cwd, baseDir))
  {
    var absBase := Abs(cwd, baseDir);
    var absPath := Join(absBase, path);
    ResolvedElems(absPath);
    RelElemsIff(Resolved(absBase), Resolved(absPath));
  }

  /** `ParseS3URI`, after `url.Parse` has produced `uri` (or failed): the
      scheme must be "s3" in any case, the bucket is the host, and the
      remote path is the URI path without its leading character, which must
      pass the string checks. */
  function ParseS3URI(uri: Result<Url>): (r: Result<S3Location>)
  {
    match uri
    case Err(e) => Err(e)
    case Ok(u) =>
      if ToLower(u.scheme) != "s3" then Err(InvalidScheme(u.scheme))
      else
        var remotePath := RemotePathOf(u.path);
        var v := ValidatePath(remotePath, "", false, "/");
        if v.Some? then Err(InvalidRemotePath(v.value))
        else Ok(S3Location(u.host, remotePath))
  }

  /** The remote path a URI path stands for. */
  function RemotePathOf(path: string): string {
    if |path| > 0 then path[1..] else ""
  }

  /** `ParseS3URI` succeeds exactly for a parsed URI with scheme "s3" or
      "S3" whose remote path passes the string checks, and then yields the
      host and that remote path; a wrong scheme is reported as such. */
  lemma ParseS3URISpec(uri: Result<Url>)
    ensures ParseS3URI(uri).Ok? <==>
              uri.Ok? && (uri.value.scheme == "s3" || uri.value.scheme == "S3") &&
              PassesStringChecks(RemotePathOf(uri.value.path))
    ensures ParseS3URI(uri).Ok? ==>
              ParseS3URI(uri).value == S3Location(uri.value.host, RemotePathOf(uri.value.path))
    ensures uri.Ok? && uri.value.scheme != "s3" && uri.value.scheme != "S3" ==>
              ParseS3URI(uri) == Err(InvalidScheme(uri.value.scheme))
  {
    if uri.Ok? {
      ToLowerS3(uri.value.scheme);
    }
  }

  /** "s3://b/../x" is refused for its remote path. */
  lemma ParseRejectsTraversalKey()
    ensures ParseS3URI(Ok(Url("s3", "b", "/../x"))) == Err(InvalidRemotePath(TraversalSequence("../x")))
  {
    assert ToLower("s3") == "s3";
    assert "/../x"[1..] == "../x";
    assert HasPrefix("../x", "../");
  }
}
