# photogo in Dafny

photogo copies a Google Photos library to a local directory tree. The driver
`Extract` lists the library page by page, following continuation tokens. For
every item on a page it starts a task that calls `saveMedia`. That task
creates `<outputDir>/<year>/<2-digit month>/<cleaned filename>`, downloads the
item's bytes into the file, and sets the file's times to the item's creation
time. A file that already has contents is skipped. A zero-length leftover from
an interrupted run is reopened and written again. The transport client builds
the list and download URLs and turns HTTP replies into values or errors.

The project has six modules:

- `Data` (data.dfy): media items, pages, timestamps and the Go error value.
  The error value records whether `errors.Is(err, context.Canceled)` holds.
- `Text` (text.dfy): the parts of Go's `strings` and `fmt` packages the
  program relies on. These are `ReplaceAll` with a one-character pattern,
  `Contains`, `%d` and `%02d`, each with the property the program needs from it.
- `Paths` (paths.dfy): `buildPath` and `nameCleaner`.
- `Client` (client.dfy): `buildURL`, the query string of a `List` request, and
  how `List` and `Get` classify what the HTTP getter returns. The getter, the
  JSON decoder and the status-text table are function parameters.
- `Storage` (storage.dfy): the local file system. `Disk` is a value with one
  pure function per operating-system call the program makes (`MkdirAll`,
  exclusive create, non-exclusive open, `Stat`, `Write`, `Chtimes`). It also
  has `OpenFileSpec` and `SaveMediaSpec`. The class `FileSystem` holds the same
  state in fields. Its methods make the calls step by step in the order the
  source does, and each method is proved equal to its function.
- `Extraction` (extraction.dfy): the pagination driver. `RunTasks` is the
  errgroup over one page and `RunFrom` is the listing loop. The method
  `Extract` (with `RunPage` and `RunTask`) runs on a `FileSystem` and is proved
  equal to `ExtractSpec`. The media service's `List` is a finite script that
  stands for any sequence of replies the service may give: the k-th call
  receives the k-th reply. `Get` is a function of the item.

The model follows the code as written, including three behaviours that
lemmas make explicit:

- `nameCleaner` (photos/photos.go:115-119) computes a space substitution at
  line 116 and then discards it, because line 117 starts again from the
  original input. Spaces survive and only '/' is replaced. `SanitizeName` is
  the intent that line 116 shows (every space and every '/' becomes '_'), and
  `NameCleanerMatchesIntentIff` states exactly when the two differ.
- The zero-length-leftover reopen (photos/photos.go:104) uses the raw file
  name, not the cleaned one. For a name containing '/', the leftover therefore
  stays empty, or the write fails (`SaveMediaMissesLeftoverOfSlashName`,
  `SaveMediaSlashNameWriteFails`).
- `saveMedia` opens the file (line 62) before it calls `Get` (line 72). A
  failed download therefore leaves an empty, restamped file behind, which the
  next run reopens as a zero-length leftover
  (`SaveMediaGetFailureLeavesEmptyFile`, `SaveMediaRewritesEmptyLeftover`).

The source functions themselves are modelled by definitions without contracts
of their own; the rows below name the lemmas and methods that state their
properties. `Paths.BuildPath` is `buildPath` (photos/photos.go:122-126),
`Paths.NameCleaner` is `nameCleaner` (photos/photos.go:115-119),
`Storage.OpenFileSpec` is `openFile` (photos/photos.go:85-114),
`Storage.SaveMediaSpec` is `saveMedia` (photos/photos.go:61-83),
`Extraction.RunTasks` is the errgroup over one page (photos/photos.go:35-50),
`Extraction.RunFrom` is the listing loop of `Extract`
(photos/photos.go:22-59), and `Client.ListQuery` and `Client.ListURL` are the
query `List` encodes and the URL it requests (client/client.go:28-33).

## Model

| member | source | states |
|---|---|---|
| Text.ReplaceChar | photos/photos.go:116-117 | `strings.ReplaceAll` with one-character strings keeps the length and replaces exactly the positions holding `from` |
| Text.ContainsIff | client/client.go:81 | the left-to-right scan of `strings.Contains` succeeds exactly when the pattern occurs at some position |
| Text.ParseIntToString | photos/photos.go:125 | the `%d` rendering of any integer reads back to that integer |
| Text.IntToString | photos/photos.go:125 | the `%d` rendering is an optionally signed numeral that carries a '-' exactly when the number is negative |
| Text.IntToStringInjective | photos/photos.go:125 | distinct years render as distinct `%d` texts |
| Text.ZeroPad2Exact | photos/photos.go:125 | the `%02d` rendering of a month is exactly two digits that read back to the month |
| Paths.BuildPathReadsBack | photos/photos.go:121-126 | the directory is the output root, '/', the year's decimal text (an optionally signed numeral that reads back to the year), '/', and two digits that read back to the month |
| Paths.BuildPathInjective | photos/photos.go:121-126 | two timestamps share a directory under the same root only if they have the same year and month |
| Paths.BuildPathExample | photos/photos_test.go:11-19 | 1994-05-20 under "base" gives "base/1994/05" |
| Paths.SanitizeName | photos/photos.go:115-119 | the intent line 116 shows: same length, each space and each '/' becomes '_', every other character is kept, and no space or '/' remains |
| Paths.NameCleanerReplacesOnlySlashes | photos/photos.go:115-119 | the cleaner as written keeps the length, turns every '/' into '_' and leaves every other character, spaces included, as it was |
| Paths.NameCleanerIdempotent | photos/photos.go:115-119 | cleaning a cleaned name changes nothing |
| Paths.NameCleanerMatchesIntentIff | photos/photos.go:115-119 | the cleaner as written agrees with `SanitizeName` exactly when the name has no space; a name with a space keeps it |
| Paths.NameCleanerFixesPlainNames | photos/photos.go:115-119 | a name is unchanged exactly when it has no '/', and no cleaned name has one |
| Client.BuildURL | client/client.go:80-86 | the result is the base URL plus "=dv" when "video" occurs in the mime type, and plus "=d" when it occurs nowhere |
| Client.BuildURLExamples | client/client_test.go:92-122 | "video/mpeg" gives "https://base/videourl=dv" and "image/jpeg" gives "https://base/url=d" |
| Client.QueryEscapeUnreserved | client/client.go:28-33 | escaping leaves a value made only of unreserved characters unchanged, so the page size is sent as "25" |
| Client.QueryEscapeNoSeparators | client/client.go:28-33 | an escaped token never contains '&' or '=', so it cannot add or split query parameters |
| Client.ListQueryParams | client/client.go:28-33 | a List query always carries pageSize=25, carries pageToken=<escaped token> exactly when the token is not empty, and has no other field |
| Client.ListURLExampleNoToken | client/client_test.go:20-35 | the List URL for the empty token is the endpoint followed by "?pageSize=25" |
| Client.ListURLUnreservedToken | client/client_test.go:36-47 | a non-empty token of unreserved characters is appended verbatim as "&pageToken=<token>" |
| Client.List | client/client.go:27-58 | succeeds exactly when the getter returns status 200 and the body decodes, with the decoded page; a getter error is passed on unchanged; any other status gives "list call returned: <code>:<status text>" |
| Client.Get | client/client.go:60-77 | requests the `buildURL` of the item; succeeds exactly on status 200, with the body unchanged; a getter error is wrapped as "failed to get (<id>): <cause>"; any other status gives "list call returned: <code>:<status text>" |
| Storage.FileSystem.MkdirAll | photos/photos.go:88-91 | the new state and error are those of `MkdirAllSpec`: the directory and all its ancestors exist afterwards unless the call fails |
| Storage.FileSystem.CreateExclusive | photos/photos.go:93 | the new state and result are those of `CreateExclusiveSpec`: an existing file gives an error for which `os.IsExist` holds, and a new file is created empty |
| Storage.FileSystem.OpenWriteOnly | photos/photos.go:104 | the new state and result are those of `OpenWriteOnlySpec`: an existing file is opened without truncation, and a missing one is created empty if its directory exists |
| Storage.FileSystem.Stat | photos/photos.go:96-99 | the result is `StatSpec`: the file's size, or an error |
| Storage.FileSystem.Write | photos/photos.go:76 | the new state and error are those of `WriteSpec`: a nil file fails with "invalid argument", and otherwise the bytes overwrite the file from offset 0 |
| Storage.FileSystem.Chtimes | photos/photos.go:112 | the new state is `ChtimesSpec`: the time is recorded for an existing file, and a failure is ignored |
| Storage.FileSystem.OpenFile | photos/photos.go:85-114 | the new state and result are those of `OpenFileSpec`: MkdirAll, exclusive create of the cleaned name, Stat on "file exists", `os.ErrExist` for a non-empty file, and a reopen under the raw name for an empty one, with each error wrapped with the source's prefix (the item's creation time rendered as year and month only) |
| Storage.FileSystem.SaveMedia | photos/photos.go:61-83 | the new state, error and download flag are those of `SaveMediaSpec`: an `IsExist` open is success without download, other open errors are returned, a handle leads to `Get`, write and restamp, and get or write errors are wrapped |
| Storage.SaveMediaFetchesIffHandle | photos/photos.go:62-72 | `Get` is called exactly when `openFile` returned a handle; otherwise the disk is what `openFile` left |
| Storage.SaveMediaFailsBeforeFetch | photos/photos.go:62-107 | a failing `MkdirAll`, an open error for which `os.IsExist` does not hold, and a failing stat of an existing file each return the wrapped error of lines 90, 97 and 106 without calling `Get` and without touching a file; only the directories `MkdirAll` made remain |
| Storage.SaveMediaSkipsIff | photos/photos.go:62-69 | `saveMedia` succeeds without downloading exactly when the cleaned file exists with contents and the mkdir, open and stat calls work; then no file and no time changes |
| Storage.OpenFileCreatesMissing | photos/photos.go:85-113 | when the mkdir and open calls work and the cleaned file is missing, `openFile` creates the directory with its ancestors and the cleaned file empty, hands back a handle on it with that path to restamp, and changes nothing else |
| Storage.SaveMediaCreatesMissing | photos/photos.go:61-114 | on a healthy disk, a missing file is created, filled with the downloaded bytes and stamped with the creation time, and no other file or time changes |
| Storage.SaveMediaRewritesEmptyLeftover | photos/photos.go:95-113 | on a healthy disk, a zero-length leftover of a name without '/' is downloaded into and stamped, and no other file or time changes |
| Storage.SaveMediaGetFailureLeavesEmptyFile | photos/photos.go:61-75 | on a healthy disk, when the download of a missing item fails, the created file stays empty and is stamped, and the error is "failed to read <name>: <cause>" |
| Storage.RawPathDiffers | photos/photos.go:92-104 | for a name containing '/', the path reopened at line 104 differs from the path created at line 93 |
| Storage.OpenFileReopensLeftover | photos/photos.go:95-113 | on a healthy disk, for a zero-length leftover at the cleaned path, `openFile` returns a handle on the raw path (or nil) with the cleaned path to restamp, and at most creates an empty raw file |
| Storage.SaveMediaMissesLeftoverOfSlashName | photos/photos.go:92-113 | on a healthy disk, for a name containing '/', a zero-length leftover at the cleaned path is downloaded again but stays empty |
| Storage.SaveMediaSlashNameWriteFails | photos/photos.go:76-104 | on a healthy disk, when the download succeeds, for a name containing '/' whose raw path is not a file, when the raw path's parent, taken as an unresolved string, is not a directory of the disk, the reopen yields a nil file and `saveMedia` fails with "failed to write <name>: invalid argument" |
| Storage.OpenFileMonotone | photos/photos.go:85-114 | `openFile` never removes or shortens a file, never removes a directory and leaves the faults as they were |
| Storage.SaveMediaMonotone | photos/photos.go:61-114 | `saveMedia` never removes or shortens a file, and never removes a directory |
| Storage.SaveMediaLeavesContents | photos/photos.go:61-114 | a successful `saveMedia` of a name without '/' whose download is not empty leaves the cleaned file with contents |
| Extraction.ItemTaskPerforms | photos/photos.go:39-45 | the item task is the no-op in read-only mode and `saveMedia` otherwise |
| Extraction.RunTask | photos/photos.go:39-45 | the new file-system state, error and download flag are the item task's outcome |
| Extraction.RunPage | photos/photos.go:35-50 | the new state, first error and downloaded items are those of `RunTasks` over the page |
| Extraction.Extract | photos/photos.go:22-59 | the status, `List` tokens, new state and downloaded items are those of `ExtractSpec` |
| Extraction.RunFromPage | photos/photos.go:33-54 | after a listed page, a task error ends the run with that error, an empty token completes it with the total, and otherwise listing goes on with the page's token |
| Extraction.RunTasksAppend | photos/photos.go:35-50 | running two item lists in turn is running their concatenation, and nothing starts after a failed task |
| Extraction.RunTasksStopsAtError | photos/photos.go:47-50 | in the sequential errgroup of the model, a page reports its first error and items after a failing prefix change nothing |
| Extraction.RunTasksReadOnly | photos/photos.go:40-43 | in read-only mode a page leaves the disk unchanged, downloads nothing and never fails |
| Extraction.RunFromCalls | photos/photos.go:24-55 | from any point of the loop, the next call uses the current token, each later call uses the previous page's non-empty continuation token, and no reply beyond the listing is requested |
| Extraction.RunFromStatus | photos/photos.go:26-57 | from any point of the loop, the end is read off the last reply: cancelled exactly on a cancelled listing error, other listing errors wrapped, and a completed run has the running total plus every listed item |
| Extraction.ExtractCallsFollowTokens | photos/photos.go:24-55 | the first `List` call uses "" and every later call uses the previous page's continuation token, never an empty one |
| Extraction.ExtractOutcome | photos/photos.go:26-57 | a cancelled listing ends without error, any other listing error is wrapped with "failed to get mediaitems: ", a completed run ends on an empty token with the count of every listed item, and a stop on a page with more to come is a task failure |
| Extraction.ExtractTwoPages | photos/photos.go:24-55 | an empty first page with token "nextpage", then a last page with any items, makes exactly the two calls "" and "nextpage" |
| Extraction.RunFromReadOnly | photos/photos.go:40-43 | in read-only mode, from any point of the loop, the disk is unchanged, nothing more is downloaded, and only a listing error fails the run |
| Extraction.ExtractReadOnly | photos/photos.go:40-43 | a read-only run leaves the disk unchanged, downloads nothing and fails only on a listing error |
| Extraction.RunTasksGrows | photos/photos.go:35-50 | a page never removes or shortens a file |
| Extraction.RunTasksStores | photos/photos.go:35-50 | a page all of whose items are tidy (no '/' in the name, a non-empty download) and whose tasks all succeed leaves each of its items with a non-empty file |
| Extraction.RunTasksSkips | photos/photos.go:62-69 | on a fault-free disk where every item of a page is stored, the page downloads nothing, fails nowhere and changes no file or time |
| Extraction.RunFromGrows | photos/photos.go:22-59 | a run never removes or shortens a file |
| Extraction.RunFromStores | photos/photos.go:22-59 | a completed run over a script all of whose items are tidy leaves every item it listed with a non-empty file |
| Extraction.RunFromSkips | photos/photos.go:22-69 | on a fault-free disk holding every item an earlier completed run listed, a run repeats that run's calls and outcome, downloads nothing and changes no file or time |
| Extraction.ExtractTwiceDownloadsNothing | photos/photos.go:22-69 | running `Extract` again after a completed run, on a fault-free disk with tidy items, repeats the same `List` calls and outcome, downloads nothing and changes no file or time |

## Left out

- Concurrency of the errgroup (photos/photos.go:35-50). Tasks run one after another, and a page stops at the first error. In the source, tasks run in parallel and the first error by time is the one reported. Tasks queued after a failure still start: their `openFile` does not look at the context, so it creates empty files and restamps them before `Get` fails on the cancelled context. The model does not create those files.
- Extraction.RunTasksStopsAtError: states the first-error rule of the sequential model. In the source, tasks queued after the failing one still create and restamp empty files, as the line above says.
- `workerCount` and `eg.SetLimit` (photos/photos.go:36). They only bound parallelism, which the sequential model does not have. A limit of 0 would block forever in the source.
- Cancellation inside `Get` and the HTTP request context. `Get` is a function of the item, and a cancelled listing is an error value flagged as `context.Canceled`.
- The operating system itself. The disk is a map of files, a set of directories and a fixed set of failing calls. Permissions, links, concurrent writers and partial writes are not modelled, and `f.Close` is assumed to succeed.
- Time zones and calendar arithmetic. An item's creation time is given as year, month (1-12) and an opaque instant. `time.Time.Year`/`Month` are not derived from the instant.
- Printing (photos/photos.go:34, 41, 57, 80; the error-body prints in client/client.go). Also left out is the locale-aware total, together with its `int64` width. The total is an unbounded integer.
- `Extract`: the listing is a finite script whose last reply ends it. A service that returns continuation tokens forever is not modelled.
- JSON decoding, `http.StatusText`, `io.ReadAll` and `http.NewRequestWithContext`. They are parameters (decoder, status text) or left out (the request is identified by its URL). A failing `io.ReadAll` of a 200 body is not modelled.
- Path resolution. Paths are unresolved strings, and files and directories are separate namespaces. The model does not treat an empty, "." or ".." file name, a name with "." or ".." components, or a path that names an existing directory the way the operating system does. For example, the name "" makes the model create a file at "<dir>/", where the source's `O_EXCL` open fails on the directory. A name "../x" makes the model look for the directory "<dir>/.." rather than the parent of `<dir>`. The lemmas that conclude a create, a rewrite or a failed write (`OpenFileCreatesMissing`, `SaveMediaCreatesMissing`, `SaveMediaSlashNameWriteFails` and the others) hold for these names only in the model.
- `ItemText`: the `%+v` rendering of an item in the "failed to open file for media item" error (photos/photos.go:106) shows the creation time as year and month. The source prints the full `time.Time` value, for example "1994-05-20 15:04:05 +0000 UTC".
- Go strings are bytes. The model's strings are Unicode characters, and `url.QueryEscape` escapes each one through its UTF-8 encoding. Strings that are not valid UTF-8 are not modelled.
- photos/mocks/MediaService.go, data/data.go and photos/data.go are not part of this model beyond the fields of `MediaItem` and `MediaResponse` that the core reads. A nil item pointer in a page is not modelled.
- Client.ListURLUnreservedToken: states the URL of the token test for every token of unreserved characters; the literal URL of that test is not stated.
