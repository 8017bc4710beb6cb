/** main: the order in which the parsed options are checked, the default
    medium, the resize and optional conversion handed to the image library,
    the save, and the exit status. log.Fatal ends the process with status 1,
    so every statement written after one of its calls is never reached. */
module Cli {
  import opened Common
  import opened Formats
  import opened Storage

  const VERSION := "0.2.1"
  const NO_INPUT := "No input file"
  const NO_OUTPUT := "No output directory"
  const BAD_WIDTH := "Width dimention should be greater than 0"
  const SAVED_PREFIX := "File successfully saved to "

  /** The option values after flag parsing. Only the one-letter flags -v, -i,
      -w, -o, -c and -m can set them: the long forms are registered under names
      that begin with '-' ("-version", "-image", ...), which Go's flag parser
      never matches (and which newer Go releases refuse at registration). */
  datatype Flags = Flags(
    version: bool,
    dstWidth: int,
    input: string,
    output: string,
    convert: string,
    medium: string)

  /** The image library as the tool uses it: reading a file, resizing to a
      width (the height computation inside Resize included), converting to a
      type code, naming a buffer's detected type, and its table of type names
      with the order in which this run visits it. */
  datatype Imaging = Imaging(
    read: string -> Result<Bytes>,
    resize: (Bytes, int) -> Result<Bytes>,
    convert: (Bytes, int) -> Result<Bytes>,
    typeName: Bytes -> string,
    types: map<int, string>,
    order: seq<int>)

  /** How the process ends: a line on standard output and an exit status, or
      log.Fatal with a reason (exit status 1). */
  datatype Outcome = Printed(line: string, code: int) | Fatal(reason: string)
  {
    function ExitCode(): int
    {
      match this
      case Printed(_, code) => code
      case Fatal(_) => 1
    }
  }

  /** The medium after defaulting: an empty selector means "disk". */
  function MediumOrDefault(medium: string): (r: string)
    ensures r != ""
    ensures medium != "" ==> r == medium
  {
    if medium == "" then "disk" else medium
  }

  /** The optional conversion step: nothing to do for an empty token, otherwise
      resolve the token and convert to the resolved type. */
  function Converted(lib: Imaging, token: string, buf: Bytes): Result<Bytes>
    requires IsIterationOrder(lib.types, lib.order)
  {
    if token == "" then Ok(buf)
    else
      var (code, err) := Resolve(lib.types, lib.order, token);
      if err.Some? then Err(err.value) else lib.convert(buf, code)
  }

  /** Everything main does before saving: the checks on the options in their
      order, reading the input, resizing and the optional conversion. The
      result is the buffer to save, or the reason the process stops. */
  function Prepare(f: Flags, lib: Imaging): Result<Bytes>
    requires IsIterationOrder(lib.types, lib.order)
  {
    if f.input == "" then Err(NO_INPUT)
    else match lib.read(f.input)
      case Err(e) => Err(e)
      case Ok(original) =>
        if f.output == "" then Err(NO_OUTPUT)
        else if f.dstWidth <= 0 then Err(BAD_WIDTH)
        else match lib.resize(original, f.dstWidth)
          case Err(e) => Err(e)
          case Ok(resized) => Converted(lib, f.convert, resized)
  }

  /** The whole run: how the process ends and what it attempted outside itself.
      `argc` is the number of positional arguments left after the flags. */
  function Main(f: Flags, argc: nat, lib: Imaging, host: Host): (Outcome, seq<Op>)
    requires IsIterationOrder(lib.types, lib.order)
  {
    if f.version then (Printed("Version " + VERSION, 0), [])
    else match Prepare(f, lib)
      case Err(reason) => (Fatal(reason), [])
      case Ok(buf) =>
        var medium := MediumOrDefault(f.medium);
        var (err, ops) := Save(medium, f.output, f.input, buf, lib.typeName(buf), host);
        if err.Some? then (Fatal(err.value), ops)
        else (Printed(SAVED_PREFIX + medium, if argc == 0 then 1 else 0), ops)
  }

  /** main, step by step. The global options struct is the value `f`; the one
      field main overwrites, the medium, is the local `medium`. */
  method Run(f: Flags, argc: nat, lib: Imaging, host: Host) returns (outcome: Outcome, ops: seq<Op>)
    requires IsIterationOrder(lib.types, lib.order)
    ensures (outcome, ops) == Main(f, argc, lib, host)
  {
    ops := [];
    if f.version {
      return Printed("Version " + VERSION, 0), [];
    }
    if f.input == "" {
      return Fatal(NO_INPUT), [];
    }
    var read := lib.read(f.input);
    if read.Err? {
      return Fatal(read.error), [];
    }
    var originalBuf := read.value;
    if f.output == "" {
      return Fatal(NO_OUTPUT), [];
    }
    if f.dstWidth <= 0 {
      return Fatal(BAD_WIDTH), [];
    }
    var medium := f.medium;
    if medium == "" {
      medium := "disk";
    }
    var resized := lib.resize(originalBuf, f.dstWidth);
    if resized.Err? {
      return Fatal(resized.error), [];
    }
    var newBuf := resized.value;
    if f.convert != "" {
      var convtype, err := ConvertTo(lib.types, lib.order, f.convert);
      if err.Some? {
        return Fatal(err.value), [];
      }
      var converted := lib.convert(newBuf, convtype);
      if converted.Err? {
        return Fatal(converted.error), [];
      }
      newBuf := converted.value;
    }
    assert Prepare(f, lib) == Ok(newBuf);
    var err;
    err, ops := SaveImg(medium, f.output, f.input, newBuf, lib.typeName, host);
    if err.Some? {
      return Fatal(err.value), ops;
    }
    outcome := Printed(SAVED_PREFIX + medium, if argc == 0 then 1 else 0);
  }

  /** -version is looked at before anything else: it prints the version and
      exits 0 whatever the other options say, and attempts nothing. */
  lemma VersionFirst(f: Flags, argc: nat, lib: Imaging, host: Host)
    requires IsIterationOrder(lib.types, lib.order)
    requires f.version
    ensures Main(f, argc, lib, host) == (Printed("Version 0.2.1", 0), [])
  {
    assert "Version " + VERSION == "Version 0.2.1";
  }

  /** The checks run in the order main.go runs them: input present, input read,
      output present, width positive. Each failure ends the run with its own
      reason, whatever the later options are, and nothing is attempted; in
      particular an unreadable input is reported even when the output is
      missing too, since the file is read before the output is checked. */
  lemma ChecksInOrder(f: Flags, argc: nat, lib: Imaging, host: Host)
    requires IsIterationOrder(lib.types, lib.order)
    requires !f.version
    ensures f.input == "" ==> Main(f, argc, lib, host) == (Fatal(NO_INPUT), [])
    ensures f.input != "" && lib.read(f.input).Err? ==>
      Main(f, argc, lib, host) == (Fatal(lib.read(f.input).error), [])
    ensures f.input != "" && lib.read(f.input).Ok? && f.output == "" ==>
      Main(f, argc, lib, host) == (Fatal(NO_OUTPUT), [])
    ensures f.input != "" && lib.read(f.input).Ok? && f.output != "" && f.dstWidth <= 0 ==>
      Main(f, argc, lib, host) == (Fatal(BAD_WIDTH), [])
  {
  }

  /** Nothing leaves the process unless every check passed, the input was read
      and resized, and any requested conversion resolved and succeeded. */
  lemma EffectsOnlyAfterChecks(f: Flags, argc: nat, lib: Imaging, host: Host)
    requires IsIterationOrder(lib.types, lib.order)
    requires Main(f, argc, lib, host).1 != []
    ensures !f.version && f.input != "" && f.output != "" && f.dstWidth > 0
    ensures lib.read(f.input).Ok? && lib.resize(lib.read(f.input).value, f.dstWidth).Ok?
    ensures f.convert != "" ==>
      && Resolve(lib.types, lib.order, f.convert).1 == None
      && lib.convert(lib.resize(lib.read(f.input).value, f.dstWidth).value,
                     Resolve(lib.types, lib.order, f.convert).0).Ok?
  {
  }

  /** Without a -convert token the library's conversion is never called: the
      run is the same whatever that conversion would do. */
  lemma NoConversionWithoutToken(f: Flags, argc: nat, lib: Imaging, host: Host,
                                 convert: (Bytes, int) -> Result<Bytes>)
    requires IsIterationOrder(lib.types, lib.order)
    requires f.convert == ""
    ensures Main(f, argc, lib, host) == Main(f, argc, lib.(convert := convert), host)
  {
    assert Prepare(f, lib) == Prepare(f, lib.(convert := convert));
  }

  /** The buffer that is saved: the resized image without a -convert token,
      and the resized image converted to the resolved type with one. Every
      file written and every object uploaded carries that buffer. */
  lemma SavedBuffer(f: Flags, argc: nat, lib: Imaging, host: Host, original: Bytes, resized: Bytes)
    requires IsIterationOrder(lib.types, lib.order)
    requires lib.read(f.input) == Ok(original) && lib.resize(original, f.dstWidth) == Ok(resized)
    requires Main(f, argc, lib, host).1 != []
    ensures f.convert != "" ==> lib.convert(resized, Resolve(lib.types, lib.order, f.convert).0).Ok?
    ensures var saved := if f.convert == "" then resized
                         else lib.convert(resized, Resolve(lib.types, lib.order, f.convert).0).value;
      forall op :: op in Main(f, argc, lib, host).1 ==>
        && (op.WriteFile? ==> op.data == saved)
        && (op.PutObject? ==> op.request.body == saved)
  {
    var buf := Prepare(f, lib).value;
    var medium := MediumOrDefault(f.medium);
    EffectsStayOnFullPath(medium, f.output, f.input, buf, lib.typeName(buf), host);
  }

  /** An unsupported conversion token aborts with the unsupported-type error
      before anything is saved. */
  lemma UnsupportedFormatAborts(f: Flags, argc: nat, lib: Imaging, host: Host)
    requires IsIterationOrder(lib.types, lib.order)
    requires !f.version && f.input != "" && f.output != "" && f.dstWidth > 0
    requires lib.read(f.input).Ok? && lib.resize(lib.read(f.input).value, f.dstWidth).Ok?
    requires f.convert != "" && !HasName(lib.types, Normalize(f.convert))
    ensures Main(f, argc, lib, host) == (Fatal(UNSUPPORTED_PREFIX + Normalize(f.convert)), [])
  {
  }

  /** An empty medium behaves exactly as "disk". */
  lemma EmptyMediumIsDisk(f: Flags, argc: nat, lib: Imaging, host: Host)
    requires IsIterationOrder(lib.types, lib.order)
    requires f.medium == ""
    ensures Main(f, argc, lib, host) == Main(f.(medium := "disk"), argc, lib, host)
  {
    assert Prepare(f, lib) == Prepare(f.(medium := "disk"), lib);
  }

  /** After a successful save the process still exits 1 when no positional
      arguments were given, and 0 otherwise. */
  lemma ExitStatusAfterSave(f: Flags, argc: nat, lib: Imaging, host: Host)
    requires IsIterationOrder(lib.types, lib.order)
    requires !f.version && Main(f, argc, lib, host).0.Printed?
    ensures Main(f, argc, lib, host).0 == Printed(SAVED_PREFIX + MediumOrDefault(f.medium), if argc == 0 then 1 else 0)
    ensures Main(f, argc, lib, host).0.ExitCode() == 1 <==> argc == 0
  {
  }

  /** The exit status is 0 only for -version or for a successful save with
      positional arguments present. */
  lemma ZeroExitOnlyWhen(f: Flags, argc: nat, lib: Imaging, host: Host)
    requires IsIterationOrder(lib.types, lib.order)
    requires Main(f, argc, lib, host).0.ExitCode() == 0
    ensures f.version || (argc > 0 && Main(f, argc, lib, host).1 != [])
  {
    if !f.version {
      var buf := Prepare(f, lib).value;
      WriteOrUploadAttempted(MediumOrDefault(f.medium), f.output, f.input, buf, lib.typeName(buf), host);
    }
  }
}
