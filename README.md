# reimg — a verified model of the command-line logic in `main.go`

reimg is a small Go tool. It reads an image, resizes it to a target width,
optionally converts it to another type, and saves it either to a local
directory or to an S3 bucket. The image work is done by the bimg library and
the upload by the AWS SDK. This project models the decision and string logic
that `main.go` puts around those calls, and proves what that logic promises:

- **File naming** (`getFilename`): the model includes Go's `filepath.Base`
  and `filepath.Ext` for the '/' separator. They are in module `FilePath`.
  `Naming` builds the output path `dst + "/" + name + "." + typename` from them.
- **Format resolution** (`convertTo`): the alias `jpg` becomes `jpeg`.
  The token is then looked up, case-sensitively, in bimg's table of type
  codes. Module `Formats`. The table is a `map<int, string>`. A Go `range`
  over a map visits its entries in no fixed order, so the order of one visit
  is an explicit parameter, `order`.
- **Saving** (`SaveImg`, `saveTos3`, `s3Add`): medium routing, the disk
  branch, the credential check and the upload request. Module `Storage`.
  The environment, the file system, the SDK and MIME sniffing are the fields
  of a `Host` value. Every operation with an outside effect that the code
  attempts is returned as an `Op` list: Mkdir, WriteFile, NewSession and
  PutObject. That list is what lets the model say "nothing was attempted".
- **The run** (`main`): the option checks in their order, the default
  medium, the resize and optional conversion, the save and the exit status.
  Module `Cli`. bimg's read, resize, convert and type-name calls are the fields
  of an `Imaging` value.

Each imperative function of main.go is a `method` that follows the Go
statements: `ConvertTo` with its loop, `SaveImg`, `SaveToS3`, `S3Add` and `Run`.
Each one is proved equal to a specification function: `Resolve`, `Save`,
`Upload`, `Request` and `Main`. The lemmas state main.go's promises about
those functions.

Behaviour of `main.go` that a reader might not expect, modelled as written:

- A failed `Mkdir` is never reported, and the write is always attempted
  (main.go:223-228). The `err` declared by `:=` inside the `if` shadows the
  outer one, and the result of `os.Mkdir` is never looked at
  (`DiskAlwaysWrites`, `MkdirErrorIgnored`).
- After a successful save, the exit status is 1 when there are no positional
  arguments (main.go:112-114). `ExitStatusAfterSave` and `ZeroExitOnlyWhen`
  state this.
- The accepted conversion tokens are the names in bimg's table of type codes,
  plus the alias `jpg` (main.go:125-133). The lookup is case-sensitive.
- `Resize` divides by the source height without checking it for zero
  (main.go:242-244). In this model `Resize` is an opaque library call.

## Model

| member | source | states |
|---|---|---|
| FilePath.Base | main.go:152 | `filepath.Base` never returns "". It returns "." for the empty path and "/" exactly when the path has only separators. Otherwise its result has no separator. |
| FilePath.Ext | main.go:153 | `filepath.Ext` as Go's backward scan over the last element. `ExtIsFinalSuffix` and `ExtOfDotted` state its contract. |
| FilePath.ExtIsFinalSuffix | main.go:153 | `filepath.Ext` returns a suffix of the last path element. The suffix is empty exactly when that element has no '.'. Otherwise it starts with '.' and contains no other '.'. |
| FilePath.BaseOfJoin | main.go:152 | Base takes a join apart. For any directory prefix ending in '/', a non-empty element without separators and any trailing separators, Base returns that element. |
| FilePath.ExtOfDotted | main.go:153 | The Ext of `stem + "." + s`, where `s` has no '.' and no '/', is exactly `"." + s`. |
| Naming.GetFilename | main.go:151-156 | Splits `filepath.Base(path)` at its `filepath.Ext`. `NameAndExtension`, `GetFilenameOfJoin`, `EmptyPathName` and `SeparatorsOnlyName` state its contract. |
| Naming.NameAndExtension | main.go:151-156 | Name and extension concatenate back to `filepath.Base(path)`. The extension is empty exactly when the base has no '.'. Otherwise it starts with '.' and has no other '.'. |
| Naming.SplitAtExt | main.go:153-154 | For one path element, or for "/", the element is its stem followed by `filepath.Ext` of it. The extension has no '/', is empty exactly when the element has no '.', and otherwise starts with its only '.'. |
| Naming.GetFilenameOfJoin | main.go:151-156 | Splitting `dir + stem + "." + suffix + separators` gives `(stem, "." + suffix)`. Only the final extension is split off, and trailing slashes are ignored. |
| Naming.EmptyPathName | main.go:151-156 | The empty path splits into ("", "."): Base gives ".", whose extension is "." itself. |
| Naming.SeparatorsOnlyName | main.go:151-156 | Every non-empty path made only of separators splits into ("/", ""). |
| Naming.FullPath | main.go:217-219 | `dst + "/" + name + "." + typename`, with the name from `getFilename` and the detected type. `FullPathShape` and `OutputNameRoundTrip` state its contract. |
| Naming.FullPathShape | main.go:217-219 | The output path starts with `dst + "/"` and ends with `"." + typename`, the detected type of the buffer. |
| Naming.OutputNameRoundTrip | main.go:217-219 | When `typename` has no '.' and no '/' (true of bimg's type names) and the input is not a path of separators only, splitting the output path again gives the input's name and `"." + typename`, whatever the input's own extension was. |
| Formats.Normalize | main.go:125-127 | "jpg" never survives normalisation, and every other token is kept as it is. `JpgIsJpeg` states the alias. |
| Formats.LastMatch | main.go:129-133 | What the loop leaves behind. It is a visited code whose name equals the token, or it is -1 when no visited code has that name. |
| Formats.ConvertTo | main.go:118-139 | The loop over the table, with `convtype` reassigned on each match, returns exactly `Resolve`: the last matching code, and an error exactly when that code is negative. |
| Formats.JpgIsJpeg | main.go:125-127 | "jpg" and "jpeg" resolve to the same code and the same error. |
| Formats.ResolveSucceedsIff | main.go:129-138 | With non-negative codes, resolution succeeds exactly when the normalised token is one of the table's names, and the code returned has that name. Otherwise the result is -1 and "Cannot convert to an unsupported type " + token. |
| Formats.NegativeCodeIsUnsupported | main.go:135-137 | A name found only under negative codes is still reported unsupported. Success depends on the codes being non-negative. |
| Formats.ResolveIgnoresOrder | main.go:129-133 | When the table's names are distinct, the order of the map iteration does not change the result. |
| Storage.CredentialsSpelledOut | main.go:174-177 | The four-way test on AWS_KEY, AWS_SECRET, AWS_BUCKET and AWS_REGION is equivalent to "every credential variable is non-empty". |
| Storage.Route | main.go:220-231 | "s3" and "S3" select the object store. Only the exact "disk" selects the disk. Every other selector is unknown. |
| Storage.Acl | main.go:195-199 | The ACL is never empty, and a non-empty AWS_ACL is used as given. `UploadedObject` states the "private" default. |
| Storage.S3Add | main.go:191-211 | Exactly one PutObject. It has the bucket from AWS_BUCKET, the full path as the key, the chosen ACL, the buffer and its length, the sniffed content type and an "attachment" disposition. Its error is returned. |
| Storage.SaveToS3 | main.go:169-188 | The credential check, then a session in AWS_REGION, then the upload. Each failure returns at once, and the result equals `Upload`. |
| Storage.SaveImg | main.go:214-233 | Builds the full path (`FullPath`: the input's name from `getFilename` and the buffer's detected type), dispatches on the medium, and the result equals `Save`. On disk the shadowed error leaves the outer error nil, so the write always follows. |
| Storage.UnknownMediumAttemptsNothing | main.go:220-231 | An unknown medium returns "Unsupported medium " + medium and attempts nothing. "s3" and "S3" behave identically. "Disk", "DISK" and "" are unknown. |
| Storage.DiskAlwaysWrites | main.go:222-228 | On disk, Mkdir is attempted exactly when the directory does not exist. The last operation is always the write to the full path, and the write's error is the one returned. |
| Storage.MkdirErrorIgnored | main.go:223-226 | Hosts that differ only in what Mkdir answers give the same result and the same operations. |
| Storage.MissingCredentialsFirst | main.go:174-177 | On the object-store route, any empty credential variable gives the missing-credentials error, and no session or upload is attempted. |
| Storage.UploadedObject | main.go:179-208 | With the credentials present, a session is opened in AWS_REGION. If that fails, its error is returned. Otherwise one PutObject follows: the key is the full path, the bucket is AWS_BUCKET, the body is the buffer, the disposition is "attachment", and the ACL is AWS_ACL when that is non-empty and "private" when it is not. |
| Storage.EffectsStayOnFullPath | main.go:217-231 | Every file written or object uploaded uses the full output path and the buffer. A created directory is the destination itself. |
| Storage.WriteOrUploadAttempted | main.go:220-232 | A save that returns no error has attempted at least one operation. |
| Cli.MediumOrDefault | main.go:82-84 | The medium is never empty, and a medium the user gave is kept. `EmptyMediumIsDisk` states the "disk" default. |
| Cli.Run | main.go:32-115 | `main`, step by step, with the defaulted medium kept in a local variable. Its outcome and operations equal `Main`. |
| Cli.VersionFirst | main.go:55-58 | With -version set, the run prints "Version 0.2.1", exits 0 and attempts nothing, whatever the other options are. |
| Cli.ChecksInOrder | main.go:60-80 | The checks run in order: empty input, then read failure, then empty output, then width ≤ 0. The first one that fails ends the run with its own message, and nothing is attempted. A read failure is reported even when the output is also empty. |
| Cli.EffectsOnlyAfterChecks | main.go:60-106 | An operation is attempted only if every check passed, the read and the resize succeeded, and any requested token resolved and its conversion succeeded. |
| Cli.NoConversionWithoutToken | main.go:92-104 | Without a -convert token the library's conversion is never called: the run is the same whatever that conversion would return. |
| Cli.SavedBuffer | main.go:86-106 | The buffer saved is the resized image without -convert, and the resized image converted to the resolved type with it. Every file written and every object uploaded carries that buffer. |
| Cli.UnsupportedFormatAborts | main.go:92-97 | A conversion token that is not in the table ends the run with the unsupported-type error before anything is saved. |
| Cli.EmptyMediumIsDisk | main.go:82-84 | An empty medium behaves exactly as "disk". |
| Cli.ExitStatusAfterSave | main.go:106-114 | After a successful save, the run prints "File successfully saved to " + medium. The exit status is 1 exactly when there are no positional arguments. |
| Cli.ZeroExitOnlyWhen | main.go:55-114 | Once the flags are parsed, exit status 0 happens only for -version, or for a save that attempted something when positional arguments are present. |

## Left out

- Flag parsing, `godotenv.Load`, printing and `os.Exit`: these are process I/O. The model starts from the parsed option values (`Flags`) and the count of positional arguments, and ends with an `Outcome`. The `options` fields `covtype` and `format` are never used by `main`, so the model has no field for them.
- The global `options` struct is a value here. The one field `main` overwrites, `medium`, becomes a local variable of `Run`.
- `Resize` (main.go:236-251) is the `resize` field of `Imaging`. Its height is computed as float64 division followed by truncation, and an integer formula would not match it on every input.
- The bimg calls `Read`, `Convert`, `Write` and `DetermineImageTypeName`, and the `http.DetectContentType` call, are opaque functions of their inputs. So are `session.NewSession` and `PutObject`. The model does not look inside any of them.
- bimg's concrete table of type codes is not fixed here. Each lemma that needs the codes to be non-negative or the names to be distinct states that as a precondition.
- Only the one-letter flags `-v -i -w -o -c -m` set the options. The long forms are registered as "-version", "-image" and so on (main.go:41-46). Go's flag parser strips the leading dashes before it looks a name up, so it never matches those names. The model starts after parsing and does not model this.
- What happens inside flag registration and `flag.Parse` depends on the Go release and is outside the model. Newer Go releases refuse flag names that begin with '-' when they are registered (main.go:41-46), and then `main` stops before any modelled step. `-h` and `-help` end the process inside `flag.Parse` with status 0.
- `MissingCredentialsFirst` guards a check only. `saveTos3` requires AWS_KEY and AWS_SECRET to be non-empty (main.go:174-175), but never passes them to the SDK. Only the region is handed to `session.NewSession` (main.go:179), and the SDK finds its credentials on its own. The model does not say which credentials the SDK uses.
- The second `log.Fatal` after each failing call is dead code. It never runs, and the model has no step for it.
- Go strings are byte sequences, and the model uses `seq<char>`. Only '/' and '.' are inspected, and both are single ASCII bytes, so the results are the same.
