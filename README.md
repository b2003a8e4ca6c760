# ZFS graph driver: a Dafny model

This project models the ZFS graph driver skeleton of the Docker daemon
(`graphdriver/zfs/zfs.go` and `graphdriver/zfs/utils.go`). At start-up the driver
checks that the kernel lists `zfs` among its filesystems. It then asks
`zfs list -H -o mountpoint -t filesystem <root>` for the mount point of the root
directory and enters that directory, so the filesystem cannot be unmounted behind
the daemon's back. Finally it returns a driver record. The rest of the driver
interface (`Create`, `Remove`, `Get`, `Exists`, `Cleanup`) is still stubbed out.

What is modelled:

- The string logic under the I/O:
  - splitting `zfs list` output into tab-free fields and taking the last one;
  - dropping one trailing newline;
  - finding the word `zfs` in the lines of `/proc/filesystems`;
  - trimming captured command output;
  - composing dataset names and layer paths with `path.Join`.
- The Go library functions this logic relies on, as pure functions:
  - `strings.FieldsFunc`, `strings.Fields`, `strings.TrimSuffix` and `strings.TrimSpace`;
  - the line tokens of a `bufio.Scanner`;
  - `path.Clean` and `path.Join`.
  
  `path.Clean` follows its documented rules:
  - repeated slashes collapse;
  - `.` elements vanish;
  - an inner `..` cancels the element before it;
  - `..` at the start of a rooted path vanishes;
  - an empty result becomes `.`.
- `Init` as an imperative sequence of steps over a scripted host (`Gateway.Host`).
  The host fixes three things:
  - what `/proc/filesystems` reads as;
  - what each command line prints and how it ends;
  - which directories can be entered.

  It records every command run and every directory change requested. Each step of
  `Init` can fail, and a failure stops the sequence before the next step.
- The driver record and its methods, as an immutable datatype. Its methods are
  functions of the record, so none of them can change the driver.

Modules: `Wrappers` (Option, Result), `GoStrings`, `GoPath`, `Gateway` (errors,
file and command outcomes, the host), `ZfsUtils` (utils.go) and `ZfsDriver`
(zfs.go, plus `getDataset`/`getPath`, which are methods of the same record).

The driver was meant to become a full copy-on-write layer manager that also stores
the backing dataset and its mount point. The code is not that far along, and the
model follows the code:

- `Init` asks only for the `mountpoint` column, not for a name and a mount point.
- The `Driver` struct declares only `root`. `getDataset` and `getPath` read
  `root_dataset` and `root_mountpoint`, which the struct does not declare, so the
  package as written does not compile. Adding the two fields would not fix it, because
  the unkeyed literal `&Driver{root}` in `Init` must then list every field. The model
  gives the record the two fields and reads the literal as `Driver{root: root}`. The
  two empty strings this leaves in the new fields are the model's choice: `Init`
  never learns a dataset name and does not store the mount point.
  - As a result, for the driver `Init` returns, `GetPath(id)` of a single element is
    the bare `id`. This is a relative path, and it resolves under the mount point only
    because `Init` changed into that directory.
  - `GetDataset(id)` of a single element is also the bare `id`. `zfs` never resolves
    a dataset name against the working directory, so this names a top-level dataset
    (a pool) called `id`, not a child of the root dataset.
- Empty or all-tab `zfs list` output is not reported as an error: line 74 indexes an
  empty slice and the program panics. The model returns `Err(IndexOutOfRange)` for
  this case. Any other output is accepted.
- `Status` reports one pair, `("Root Dir", root)`.
- The layer operations are stubs that always fail (`Exists` is always false). The
  copy-on-write lifecycle does not exist in this code and is not modelled.
- Errors are Go errors with the texts the code builds, or passed on from the OS.
  There are no named error kinds.

The child-path property of `path.Join` holds for a clean base other than `/` and
`.`. For `.` it fails, because `Join(".", "abc")` is `"abc"`, not `"./abc"`.
`GoPath.JoinElement` therefore states the `/` case and the empty-base case
separately.

## Model

| member | source | states |
|---|---|---|
| `GoStrings.FieldsFunc` | graphdriver/zfs/zfs.go:69-72 | every field is non-empty and holds no separator; there is no field exactly when the text consists of separators only |
| `GoStrings.FieldsFuncSplit` | graphdriver/zfs/zfs.go:69-72 | a separator cuts the text into two parts split independently, so leading or repeated tabs never give an empty field |
| `GoStrings.LastField` | graphdriver/zfs/zfs.go:69-74 | when the text ends with a maximal non-tab run followed only by tabs, that run is the last field |
| `GoStrings.FieldsFuncContents` | graphdriver/zfs/zfs.go:69-72 | concatenated, the fields are the text with its separators removed: no other character is lost, added or moved |
| `GoStrings.Fields` | graphdriver/zfs/utils.go:44 | every word is non-empty and holds no white space; there is no word exactly when the line is all white space |
| `GoStrings.FieldsFuncTwoWords` | graphdriver/zfs/utils.go:44 | two separator-free words with one separator between them are exactly two fields |
| `GoStrings.ScanLines` | graphdriver/zfs/utils.go:42-43 | no scanner token holds a newline; empty text gives no token |
| `GoStrings.ScanLinesFirst` | graphdriver/zfs/utils.go:42-43 | a newline-terminated first line, minus a trailing carriage return, is the first token, and scanning resumes after it |
| `GoStrings.TrimSuffix` | graphdriver/zfs/zfs.go:76 | when the text ends with the suffix, the result followed by the suffix is the text, so the suffix is removed exactly once; otherwise the text is unchanged |
| `GoStrings.TrimSpace` | graphdriver/zfs/utils.go:68-69 | the result neither starts nor ends with white space and is an infix of the input with only white space cut off on either side |
| `GoStrings.TrimSpaceIdempotent` | graphdriver/zfs/utils.go:68-69 | trimming a trimmed output changes nothing |
| `GoStrings.TrimSpaceEmpty` | graphdriver/zfs/utils.go:68-71 | the trimmed output is empty exactly when the captured output is all white space |
| `GoPath.Clean` | graphdriver/zfs/utils.go:96 | the cleaned path is never empty, and a rooted path stays rooted (its laws are in the lemma rows below) |
| `GoPath.Join` | graphdriver/zfs/utils.go:96 | the result is empty exactly when both arguments are empty, and it is rooted when the first non-empty argument is |
| `GoPath.CleanAppendElement` | graphdriver/zfs/utils.go:95-101 | under a clean base other than `/` and `.`, appending one path element needs no cleaning |
| `GoPath.JoinElement` | graphdriver/zfs/utils.go:95-101 | `Join(base, id)` for a single element `id` is `base + "/" + id` for a clean base, `"/" + id` under `/`, and `id` for an empty base |
| `GoPath.CleanChildDotDot` | graphdriver/zfs/utils.go:95-101 | descending into an element and then applying `..` returns to the cleaned parent |
| `GoPath.CleanIdempotent` | graphdriver/zfs/utils.go:95-101 | cleaning a cleaned path changes nothing |
| `GoPath.JoinIsClean` | graphdriver/zfs/utils.go:95-101 | every non-empty join result is a clean path |
| `Gateway.Host.Run` | graphdriver/zfs/zfs.go:51-56 | running a command appends its command line to the record of commands and yields that line's scripted result, and changes nothing else |
| `Gateway.Host.Chdir` | graphdriver/zfs/zfs.go:85 | the request is recorded; it succeeds exactly for a non-empty name the host lists as a directory, which becomes the working directory; the empty name always fails, as in Go; a failure leaves the working directory unchanged |
| `ZfsUtils.SliceContainsString` | graphdriver/zfs/utils.go:23-30 | true exactly when some element equals the string, so false on the empty list; since the answer is plain membership, it does not depend on the order of the elements or on repeats |
| `ZfsUtils.SupportsZfs` | graphdriver/zfs/utils.go:35-50 | an open error is returned unchanged; otherwise nil exactly when some line has a white-space separated word equal to `zfs`, else the "ZFS was not found" error |
| `ZfsUtils.EmptyListingNotFound` | graphdriver/zfs/utils.go:49 | an empty listing gives the "ZFS was not found in /proc/filesystems" error |
| `ZfsUtils.FirstLineNamesZfs` | graphdriver/zfs/utils.go:43-47 | a first line whose words include `zfs` makes the check succeed whatever follows |
| `ZfsUtils.NodevZfsWords` | graphdriver/zfs/utils.go:44 | the words of `nodev\tzfs` are `nodev` and `zfs` |
| `ZfsUtils.NodevZfsLine` | graphdriver/zfs/utils.go:43-47 | a listing whose first line is `nodev\tzfs` passes the check |
| `ZfsUtils.SingleWordListing` | graphdriver/zfs/utils.go:42-44 | a listing of one newline-terminated line holding one white-space-free word has exactly that line, and the line exactly that word |
| `ZfsUtils.LookalikeWordsNotZfs` | graphdriver/zfs/utils.go:43-49 | a listing holding only `zfsx` or only `nozfs` fails with "ZFS was not found" |
| `ZfsUtils.ExecCmd` | graphdriver/zfs/utils.go:60-81 | the command is run once and recorded; stdout and stderr are its captured output with surrounding white space removed, neither has leading or trailing white space, trimming them again changes nothing, and the run error is passed on |
| `ZfsDriver.ParseMountPoint` | graphdriver/zfs/zfs.go:69-76 | parsing fails (the index panic at line 74) exactly when the output is empty or all tabs; a parsed mount point never holds a tab |
| `ZfsDriver.ParseMountPointLastRun` | graphdriver/zfs/zfs.go:69-76 | the mount point is the last maximal non-tab run with at most one trailing newline removed, whatever precedes it and however many tabs follow |
| `ZfsDriver.ParseSingleColumn` | graphdriver/zfs/zfs.go:69-76 | the single-column line `M\n` with tab-free M parses to exactly M |
| `ZfsDriver.ParseLastColumn` | graphdriver/zfs/zfs.go:69-76 | in a tab-separated line the last column, without its newline, is taken |
| `ZfsDriver.ParseStripsOneNewline` | graphdriver/zfs/zfs.go:74-76 | only one trailing newline is removed: `M\n\n` gives `M\n` |
| `ZfsDriver.ParseBlankLine` | graphdriver/zfs/zfs.go:69-76 | a blank output line is not the index panic: it parses to the empty mount point, which Chdir then refuses |
| `ZfsDriver.ListArgs` | graphdriver/zfs/zfs.go:51 | the command is `zfs list` with `-H` (no header line, tab-separated columns), it asks through `-o` for the `mountpoint` column and no `name` column, and its last argument is the root |
| `ZfsDriver.ChdirFailed` | graphdriver/zfs/zfs.go:85-87 | the error for an unenterable mount point is a message starting `zfs-Init: ` and ending with the mount point in single quotes |
| `ZfsDriver.Init` | graphdriver/zfs/zfs.go:32-90 | a failed support check is returned before any command runs or any directory changes; a failed `zfs list` is returned without a directory change; output with no field panics without a directory change; an unenterable mount point gives the error naming it, and the empty mount point is always unenterable; only when every step succeeds is the driver `Driver{root}` returned, with the working directory at the mount point |
| `ZfsDriver.NewDriver` | graphdriver/zfs/zfs.go:89 | the record `Driver{root: root}` reports the root it was given, and its dataset and mount point fields are empty (the model's reading of a literal that, with those fields declared, would not compile) |
| `ZfsDriver.InitDriverSurface` | graphdriver/zfs/zfs.go:89-105 | the driver Init returns reports the root it was given and one status pair with that root, and with its dataset and mount point fields empty composes a bare id |
| `ZfsDriver.Driver.RootPath` | graphdriver/zfs/zfs.go:92-94 | returns the stored root unchanged |
| `ZfsDriver.Driver.String` | graphdriver/zfs/zfs.go:96-98 | the driver's name is `zfs` |
| `ZfsDriver.Driver.Status` | graphdriver/zfs/zfs.go:100-105 | exactly one pair, `("Root Dir", root)` |
| `ZfsDriver.Driver.Cleanup` | graphdriver/zfs/zfs.go:107-109 | always the error "zfs-Cleanup: not supported yet" |
| `ZfsDriver.Driver.Create` | graphdriver/zfs/zfs.go:111-113 | for every id and parent, the error "zfs-Create: not supported yet" |
| `ZfsDriver.Driver.Remove` | graphdriver/zfs/zfs.go:115-117 | for every id, the error "zfs-Remove: not supported yet" |
| `ZfsDriver.Driver.Get` | graphdriver/zfs/zfs.go:119-121 | for every id, the empty path together with the error "zfs-Get: not supported yet" |
| `ZfsDriver.Driver.Exists` | graphdriver/zfs/zfs.go:123-125 | false for every id |
| `ZfsDriver.Driver.GetDataset` | graphdriver/zfs/utils.go:95-97 | a single-element id lands directly below a clean dataset name (or below `/`, or is the bare id when the name is empty), and every non-empty result is a clean path |
| `ZfsDriver.Driver.GetPath` | graphdriver/zfs/utils.go:99-101 | a single element lands below a clean mount point, below `/`, or is the bare id for an empty mount point, and every non-empty result is a clean path |
| `ZfsDriver.PathMirrorsDataset` | graphdriver/zfs/utils.go:95-101 | the path under a mount point is the dataset name under a dataset of the same text: swapping the two fields swaps the two compositions |
| `ZfsDriver.DotDotNamesParent` | graphdriver/zfs/utils.go:95-101 | the id is not validated: `..` names the parent of the base, which for a clean parent is not below the base |

## Left out

- Process execution (`exec.Command`, `cmd.Run`, the output buffers): a scripted result per command line (`Gateway.Host.Run`). The exit-error text is an abstract detail string.
- Opening `/proc/filesystems` and `os.Chdir`: their outcomes are inputs of the host. `Chdir` fails on the empty name as Go does (ENOENT), sets the working directory to the text it was given and does not resolve relative paths.
- bufio.Scanner's 64 KiB token limit and read errors: a line over the limit ends the scan early in Go, and the model does not have that cut-off.
- White space beyond ASCII: `strings.Fields` and `strings.TrimSpace` also treat U+0085, U+00A0 and other Unicode spaces as white space. The model uses space, `\t`, `\n`, `\v`, `\f` and `\r`.
- Debug logging (`dbg`, `funcEnter`, `funcLeave`, which use `runtime.Caller`): no observable effect on results.
- Driver registration in `init()`: a call into the daemon's registry, which is not part of this model.
- The copy-on-write lifecycle (snapshot, clone, mount, unmount): not implemented in this code; the methods are stubs, modelled as such.
- ZfsDriver.Driver.GetPath: states the result only for the same cases as GetDataset (single-element ids, `..`, cleanliness); other ids are given by the definition of `path.Clean` itself.
- ZfsDriver.Driver.GetDataset: states the result only for single-element ids (below a clean base, `/` or the empty base) and for `..` (through DotDotNamesParent), plus cleanliness for every id; other ids are given by the definition of `path.Clean` itself.
