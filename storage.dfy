/** SaveImg and the object-store upload behind it (saveTos3, s3Add): which
    medium a selector names, which path the image goes to, and what is
    attempted on disk or against the object store. The operating system, the
    environment and the SDK are the fields of a Host; what the code asks of
    them is returned as a list of operations. */
module Storage {
  import opened Common
  import opened Naming

  const MISSING_CREDENTIALS := "Missing AWS credentials, please use .env file or real environment variables"
  const UNSUPPORTED_MEDIUM := "Unsupported medium "
  /** The permission bits 0755 given to a created output directory. */
  const DIR_MODE := 493
  /** The variables saveTos3 insists on before it opens a session. */
  const CREDENTIAL_VARS: seq<string> := ["AWS_KEY", "AWS_SECRET", "AWS_BUCKET", "AWS_REGION"]

  /** The fields s3Add sets on its PutObject call. */
  datatype PutRequest = PutRequest(
    bucket: string,
    key: string,
    acl: string,
    body: Bytes,
    contentLength: int,
    contentType: string,
    contentDisposition: string)

  /** An operation with an effect outside the process. */
  datatype Op =
    | Mkdir(dir: string, mode: int)
    | WriteFile(path: string, data: Bytes)
    | NewSession(region: string)
    | PutObject(request: PutRequest)

  /** What the process can observe of its surroundings: the environment, and the
      answers of the file system, the SDK and MIME sniffing (each an error or None). */
  datatype Host = Host(
    env: map<string, string>,
    notExist: string -> bool,
    mkdir: (string, int) -> Option<string>,
    write: (string, Bytes) -> Option<string>,
    newSession: string -> Option<string>,
    putObject: PutRequest -> Option<string>,
    detectContentType: Bytes -> string)

  /** os.Getenv: an unset variable reads as "". */
  function Getenv(env: map<string, string>, key: string): string
  {
    if key in env then env[key] else ""
  }

  /** Every credential variable is set to something non-empty. */
  predicate HasCredentials(env: map<string, string>)
  {
    forall v :: v in CREDENTIAL_VARS ==> Getenv(env, v) != ""
  }

  /** The credential check spelled out as saveTos3 writes it, one variable at a time. */
  lemma CredentialsSpelledOut(env: map<string, string>)
    ensures HasCredentials(env) <==>
      && Getenv(env, "AWS_KEY") != "" && Getenv(env, "AWS_SECRET") != ""
      && Getenv(env, "AWS_BUCKET") != "" && Getenv(env, "AWS_REGION") != ""
  {
    assert CREDENTIAL_VARS[0] == "AWS_KEY" && CREDENTIAL_VARS[1] == "AWS_SECRET";
    assert CREDENTIAL_VARS[2] == "AWS_BUCKET" && CREDENTIAL_VARS[3] == "AWS_REGION";
  }

  /** The media SaveImg tells apart. */
  datatype Medium = ObjectStore | LocalDisk | Unknown

  /** The medium a selector names: both spellings "s3" and "S3" name the object
      store, only the exact "disk" names the local disk, nothing else is known. */
  function Route(medium: string): (m: Medium)
    ensures m == ObjectStore <==> medium == "s3" || medium == "S3"
    ensures m == LocalDisk <==> medium == "disk"
  {
    if medium == "s3" || medium == "S3" then ObjectStore
    else if medium == "disk" then LocalDisk
    else Unknown
  }

  /** The ACL s3Add applies: AWS_ACL when it is set and non-empty, else "private". */
  function Acl(env: map<string, string>): (r: string)
    ensures r != ""
    ensures Getenv(env, "AWS_ACL") != "" ==> r == Getenv(env, "AWS_ACL")
  {
    var acl := Getenv(env, "AWS_ACL");
    if acl == "" then "private" else acl
  }

  /** The object s3Add uploads: `buf` in the configured bucket under the key
      `fullpath`, with the chosen ACL and an "attachment" disposition. */
  function Request(host: Host, fullpath: string, buf: Bytes): PutRequest
  {
    PutRequest(Getenv(host.env, "AWS_BUCKET"), fullpath, Acl(host.env), buf, |buf|,
               host.detectContentType(buf), "attachment")
  }

  /** What saveTos3 attempts and returns. */
  function Upload(host: Host, fullpath: string, buf: Bytes): (Option<string>, seq<Op>)
  {
    if !HasCredentials(host.env) then (Some(MISSING_CREDENTIALS), [])
    else
      var region := Getenv(host.env, "AWS_REGION");
      match host.newSession(region)
      case Some(e) => (Some(e), [NewSession(region)])
      case None =>
        var req := Request(host, fullpath, buf);
        (host.putObject(req), [NewSession(region), PutObject(req)])
  }

  /** What SaveImg attempts and returns once it has built the full path. */
  function Dispatch(medium: string, dst: string, path: string, buf: Bytes, host: Host)
    : (Option<string>, seq<Op>)
  {
    match Route(medium)
    case ObjectStore => Upload(host, path, buf)
    case LocalDisk =>
      var mkdir := if host.notExist(dst) then [Mkdir(dst, DIR_MODE)] else [];
      (host.write(path, buf), mkdir + [WriteFile(path, buf)])
    case Unknown => (Some(UNSUPPORTED_MEDIUM + medium), [])
  }

  /** What SaveImg attempts and returns, for an output buffer whose detected
      type is named `typename`. */
  function Save(medium: string, dst: string, inPath: string, buf: Bytes, typename: string, host: Host)
    : (Option<string>, seq<Op>)
  {
    Dispatch(medium, dst, FullPath(dst, inPath, typename), buf, host)
  }

  /** s3Add: one PutObject call, whose error is returned. */
  method S3Add(host: Host, fullpath: string, buf: Bytes) returns (err: Option<string>, ops: seq<Op>)
    ensures ops == [PutObject(Request(host, fullpath, buf))]
    ensures err == host.putObject(Request(host, fullpath, buf))
  {
    var size := |buf|;
    var acl := "private";
    if Getenv(host.env, "AWS_ACL") != "" {
      acl := Getenv(host.env, "AWS_ACL");
    }
    var req := PutRequest(Getenv(host.env, "AWS_BUCKET"), fullpath, acl, buf, size,
                          host.detectContentType(buf), "attachment");
    err := host.putObject(req);
    ops := [PutObject(req)];
  }

  /** saveTos3: checks the credentials, opens a session in the configured
      region, then uploads. */
  method SaveToS3(host: Host, fullpath: string, buf: Bytes) returns (err: Option<string>, ops: seq<Op>)
    ensures (err, ops) == Upload(host, fullpath, buf)
  {
    err, ops := None, [];
    var env := host.env;
    CredentialsSpelledOut(env);
    if Getenv(env, "AWS_KEY") == "" || Getenv(env, "AWS_SECRET") == ""
      || Getenv(env, "AWS_BUCKET") == "" || Getenv(env, "AWS_REGION") == ""
    {
      assert !HasCredentials(env);
      return Some(MISSING_CREDENTIALS), [];
    }
    var region := Getenv(env, "AWS_REGION");
    err := host.newSession(region);
    ops := [NewSession(region)];
    if err.Some? {
      return;
    }
    var putOps;
    err, putOps := S3Add(host, fullpath, buf);
    ops := ops + putOps;
    assert ops == [NewSession(region), PutObject(Request(host, fullpath, buf))];
  }

  /** "s3" and "S3" dispatch to saveTos3. */
  lemma DispatchObjectStore(medium: string, dst: string, path: string, buf: Bytes, host: Host)
    requires medium == "s3" || medium == "S3"
    ensures Dispatch(medium, dst, path, buf, host) == Upload(host, path, buf)
  {
  }

  /** "disk" creates the directory when it is missing, then writes the file. */
  lemma DispatchDisk(medium: string, dst: string, path: string, buf: Bytes, host: Host)
    requires medium == "disk"
    ensures Dispatch(medium, dst, path, buf, host)
         == (host.write(path, buf), (if host.notExist(dst) then [Mkdir(dst, DIR_MODE)] else []) + [WriteFile(path, buf)])
  {
    assert Route(medium) == LocalDisk;
  }

  /** Any other selector is refused without an attempt. */
  lemma DispatchUnknown(medium: string, dst: string, path: string, buf: Bytes, host: Host)
    requires medium != "s3" && medium != "S3" && medium != "disk"
    ensures Dispatch(medium, dst, path, buf, host) == (Some(UNSUPPORTED_MEDIUM + medium), [])
  {
  }

  /** SaveImg. The output path is FullPath: the input's name from getFilename
      and the buffer's detected type. On disk, the error of the directory check lives in a variable of
      its own (Go's `:=` inside the `if` shadows `err`), and Mkdir's result is
      not kept, so the outer error is still None and the write always follows. */
  method SaveImg(medium: string, dstPath: string, inPath: string, buf: Bytes,
                 typeName: Bytes -> string, host: Host)
    returns (err: Option<string>, ops: seq<Op>)
    ensures (err, ops) == Save(medium, dstPath, inPath, buf, typeName(buf), host)
  {
    err, ops := None, [];
    var typename := typeName(buf);
    var fullpath := FullPath(dstPath, inPath, typename);
    if medium == "s3" || medium == "S3" {
      DispatchObjectStore(medium, dstPath, fullpath, buf, host);
      err, ops := SaveToS3(host, fullpath, buf);
    } else if medium == "disk" {
      DispatchDisk(medium, dstPath, fullpath, buf, host);
      var missing := host.notExist(dstPath);
      if missing {
        var _ := host.mkdir(dstPath, DIR_MODE);
        ops := ops + [Mkdir(dstPath, DIR_MODE)];
      }
      if err == None {
        err := host.write(fullpath, buf);
        ops := ops + [WriteFile(fullpath, buf)];
      }
      assert ops == (if missing then [Mkdir(dstPath, DIR_MODE)] else []) + [WriteFile(fullpath, buf)];
    } else {
      DispatchUnknown(medium, dstPath, fullpath, buf, host);
      err := Some(UNSUPPORTED_MEDIUM + medium);
    }
  }

  /** An unknown medium is an error and nothing is attempted; "s3" and "S3" behave alike. */
  lemma UnknownMediumAttemptsNothing(medium: string, dst: string, inPath: string, buf: Bytes,
                                     typename: string, host: Host)
    ensures Route(medium) == Unknown ==>
      Save(medium, dst, inPath, buf, typename, host) == (Some(UNSUPPORTED_MEDIUM + medium), [])
    ensures Save("s3", dst, inPath, buf, typename, host) == Save("S3", dst, inPath, buf, typename, host)
    ensures Route("Disk") == Unknown && Route("DISK") == Unknown && Route("") == Unknown
  {
  }

  /** On disk the directory is created only when it is missing, and the write
      to the full path is always attempted: its error is the one returned. */
  lemma DiskAlwaysWrites(medium: string, dst: string, inPath: string, buf: Bytes,
                         typename: string, host: Host)
    requires Route(medium) == LocalDisk
    ensures var (err, ops) := Save(medium, dst, inPath, buf, typename, host);
      && ops != [] && ops[|ops| - 1] == WriteFile(FullPath(dst, inPath, typename), buf)
      && (Mkdir(dst, DIR_MODE) in ops <==> host.notExist(dst))
      && err == host.write(FullPath(dst, inPath, typename), buf)
  {
  }

  /** A failing Mkdir is never reported: hosts that differ only in what Mkdir
      answers lead to the same result and the same attempts. */
  lemma MkdirErrorIgnored(medium: string, dst: string, inPath: string, buf: Bytes,
                          typename: string, host: Host, mkdir: (string, int) -> Option<string>)
    ensures Save(medium, dst, inPath, buf, typename, host)
         == Save(medium, dst, inPath, buf, typename, host.(mkdir := mkdir))
  {
  }

  /** With any credential variable unset or empty, the object-store branch
      fails with the missing-credentials error before any session is opened. */
  lemma MissingCredentialsFirst(medium: string, dst: string, inPath: string, buf: Bytes,
                                typename: string, host: Host, v: string)
    requires Route(medium) == ObjectStore
    requires v in CREDENTIAL_VARS && Getenv(host.env, v) == ""
    ensures Save(medium, dst, inPath, buf, typename, host) == (Some(MISSING_CREDENTIALS), [])
  {
  }

  /** With the credentials present, a session is opened in AWS_REGION; if it
      opens, `buf` is uploaded to AWS_BUCKET under the full output path, with
      ACL AWS_ACL when that is non-empty and "private" otherwise, and an
      "attachment" disposition. */
  lemma UploadedObject(medium: string, dst: string, inPath: string, buf: Bytes,
                       typename: string, host: Host)
    requires Route(medium) == ObjectStore
    requires HasCredentials(host.env)
    ensures var (err, ops) := Save(medium, dst, inPath, buf, typename, host);
      var region := Getenv(host.env, "AWS_REGION");
      && ops != [] && ops[0] == NewSession(region)
      && (host.newSession(region).Some? ==> err == host.newSession(region) && |ops| == 1)
      && (host.newSession(region).None? ==>
            && |ops| == 2 && ops[1].PutObject?
            && var req := ops[1].request;
            && req.key == FullPath(dst, inPath, typename)
            && req.bucket == Getenv(host.env, "AWS_BUCKET")
            && req.body == buf && req.contentLength == |buf|
            && req.contentDisposition == "attachment"
            && (Getenv(host.env, "AWS_ACL") != "" ==> req.acl == Getenv(host.env, "AWS_ACL"))
            && (Getenv(host.env, "AWS_ACL") == "" ==> req.acl == "private")
            && err == host.putObject(req))
  {
  }

  /** Whatever the medium, every file written or object uploaded is the full
      output path, and a created directory is the destination itself. */
  lemma EffectsStayOnFullPath(medium: string, dst: string, inPath: string, buf: Bytes,
                              typename: string, host: Host)
    ensures var ops := Save(medium, dst, inPath, buf, typename, host).1;
      forall op :: op in ops ==>
        && (op.WriteFile? ==> op.path == FullPath(dst, inPath, typename) && op.data == buf)
        && (op.PutObject? ==> op.request.key == FullPath(dst, inPath, typename) && op.request.body == buf)
        && (op.Mkdir? ==> op.dir == dst)
  {
    var path := FullPath(dst, inPath, typename);
    var ops := Save(medium, dst, inPath, buf, typename, host).1;
    assert ops == Dispatch(medium, dst, path, buf, host).1;
    match Route(medium)
    case ObjectStore =>
      if HasCredentials(host.env) {
        var region := Getenv(host.env, "AWS_REGION");
        if host.newSession(region).None? {
          assert ops == [NewSession(region), PutObject(Request(host, path, buf))];
        }
      }
    case LocalDisk =>
      assert ops == (if host.notExist(dst) then [Mkdir(dst, DIR_MODE)] else []) + [WriteFile(path, buf)];
    case Unknown =>
  }

  /** A save that reports no error has attempted a write or an upload. */
  lemma WriteOrUploadAttempted(medium: string, dst: string, inPath: string, buf: Bytes,
                              typename: string, host: Host)
    requires Save(medium, dst, inPath, buf, typename, host).0 == None
    ensures Save(medium, dst, inPath, buf, typename, host).1 != []
  {
  }
}
