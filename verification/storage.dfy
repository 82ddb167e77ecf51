/** Materialising one item on disk: `openFile` decides between creating the
    file, skipping a complete one and reopening an empty leftover, and
    `saveMedia` downloads and writes through the handle it gets.

    The disk is a value (`Disk`) with one pure function per operating-system
    call the program makes; the class `FileSystem` holds the same state in
    fields and its methods perform the calls step by step, each proved equal
    to its function. */
module Storage {
  import opened Data
  import opened Text
  import opened Paths

  type Path = string

  /** The operating-system calls the program makes. */
  datatype OsOp = MkdirOp | OpenOp | StatOp | WriteOp | ChtimesOp

  /** Regular files with their contents, the directories that exist, the
      modification times that were set, and the calls that fail with an I/O
      error (the environment's faults, fixed for the run). */
  datatype Disk = Disk(
    files: map<Path, Bytes>,
    dirs: set<Path>,
    mtimes: map<Path, int>,
    faults: set<(OsOp, Path)>)

  const EIO := "input/output error"
  const ENOENT := "no such file or directory"
  const EEXIST := "file exists"

  /** `os.ErrExist`: the only error of `openFile` for which `os.IsExist` holds. */
  const ErrExist := Plain("file already exists")

  /** `os.ErrInvalid`, returned by a write through a nil `*os.File`. */
  const ErrInvalid := Plain("invalid argument")

  /** The text of an `*os.PathError`. */
  function PathError(op: string, path: Path, reason: string): Error
  {
    Plain(op + " " + path + ": " + reason)
  }

  /** Everything before the last '/', or "." when there is none. */
  function Parent(p: Path): Path
  {
    if p == [] then "."
    else if p[|p| - 1] == '/' then p[..|p| - 1]
    else Parent(p[..|p| - 1])
  }

  /** The proper ancestors of a slash-separated path. */
  function Ancestors(p: Path): set<Path>
  {
    set i | 0 < i < |p| && p[i] == '/' :: p[..i]
  }

  /** `os.MkdirAll(p, os.ModePerm)`: creates `p` and its ancestors. */
  function MkdirAllSpec(d: Disk, p: Path): (Disk, Option<Error>)
  {
    if (MkdirOp, p) in d.faults then (d, Some(PathError("mkdir", p, EIO)))
    else (d.(dirs := d.dirs + {p} + Ancestors(p)), None)
  }

  /** The outcome of `os.OpenFile`: a handle on a path, or an error that says
      whether `os.IsExist` holds of it. */
  datatype OpenResult = Opened(path: Path) | OpenError(err: Error, isExist: bool)

  /** `os.OpenFile(p, O_CREATE|O_WRONLY|O_EXCL, 0666)`. */
  function CreateExclusiveSpec(d: Disk, p: Path): (Disk, OpenResult)
  {
    if (OpenOp, p) in d.faults then (d, OpenError(PathError("open", p, EIO), false))
    else if p in d.files then (d, OpenError(PathError("open", p, EEXIST), true))
    else if Parent(p) !in d.dirs then (d, OpenError(PathError("open", p, ENOENT), false))
    else (d.(files := d.files[p := []]), Opened(p))
  }

  /** `os.OpenFile(p, O_CREATE|O_WRONLY, 0666)`: opens an existing file without
      truncating it, or creates an empty one. */
  function OpenWriteOnlySpec(d: Disk, p: Path): (Disk, OpenResult)
  {
    if (OpenOp, p) in d.faults then (d, OpenError(PathError("open", p, EIO), false))
    else if p in d.files then (d, Opened(p))
    else if Parent(p) !in d.dirs then (d, OpenError(PathError("open", p, ENOENT), false))
    else (d.(files := d.files[p := []]), Opened(p))
  }

  /** `os.Stat(p).Size()`. */
  function StatSpec(d: Disk, p: Path): Result<nat>
  {
    if (StatOp, p) in d.faults then Fail(PathError("stat", p, EIO))
    else if p in d.files then Ok(|d.files[p]|)
    else Fail(PathError("stat", p, ENOENT))
  }

  /** A Go `*os.File`, possibly nil. */
  datatype Handle = NilFile | File(path: Path)

  /** Writing `b` at offset 0 of a file that held `current`: the file keeps
      whatever lies beyond the end of `b`. */
  function Overwrite(current: Bytes, b: Bytes): (r: Bytes)
    ensures |r| == if |b| >= |current| then |b| else |current|
    ensures r[..|b|] == b
    ensures |b| < |current| ==> r[|b|..] == current[|b|..]
  {
    if |b| >= |current| then b else b + current[|b|..]
  }

  /** `f.Write(b)` on a freshly opened handle. */
  function WriteSpec(d: Disk, h: Handle, b: Bytes): (Disk, Option<Error>)
  {
    match h
    case NilFile => (d, Some(ErrInvalid))
    case File(p) =>
      if (WriteOp, p) in d.faults then (d, Some(PathError("write", p, EIO)))
      else (d.(files := d.files[p := Overwrite(if p in d.files then d.files[p] else [], b)]), None)
  }

  /** `os.Chtimes(p, t, t)`, whose error the program ignores. */
  function ChtimesSpec(d: Disk, p: Path, t: int): Disk
  {
    if (ChtimesOp, p) in d.faults || p !in d.files then d
    else d.(mtimes := d.mtimes[p := t])
  }

  /** The path `openFile` creates for an item. */
  function CleanPath(outputDir: Path, item: MediaItem): Path
  {
    BuildPath(outputDir, item.creationTime) + "/" + NameCleaner(item.filename)
  }

  /** The path line 104 reopens: the raw file name, not the cleaned one. */
  function RawPath(outputDir: Path, item: MediaItem): Path
  {
    BuildPath(outputDir, item.creationTime) + "/" + item.filename
  }

  /** The `%+v` rendering of an item; the creation time is shown as year and
      month only. */
  function ItemText(item: MediaItem): string
  {
    "{ID:" + item.id + " Filename:" + item.filename + " BaseUrl:" + item.baseUrl
      + " MimeType:" + item.mimeType + " Metadata:{CreationTime:"
      + IntToString(item.creationTime.year) + "-" + ZeroPad2(item.creationTime.month) + "}}"
  }

  /** What `openFile` hands back: a handle and the path its closer restamps, or
      an error that says whether `os.IsExist` holds of it. */
  datatype OpenFileResult = GotFile(file: Handle, stampPath: Path) | OpenFileError(err: Error, isExist: bool)

  /** `openFile`. */
  function OpenFileSpec(d: Disk, outputDir: Path, item: MediaItem): (Disk, OpenFileResult)
  {
    var filePath := BuildPath(outputDir, item.creationTime);
    var (d1, mkdirErr) := MkdirAllSpec(d, filePath);
    if mkdirErr.Some? then
      (d1, OpenFileError(Plain("failed to create directory structure for media: " + mkdirErr.value.message), false))
    else
      var cleanPath := filePath + "/" + NameCleaner(item.filename);
      var (d2, created) := CreateExclusiveSpec(d1, cleanPath);
      match created
      case Opened(p) => (d2, GotFile(File(p), cleanPath))
      case OpenError(err, isExist) =>
        if !isExist then
          (d2, OpenFileError(Plain("failed to open file for media item " + ItemText(item) + ": " + err.message), false))
        else
          match StatSpec(d2, cleanPath)
          case Fail(statErr) =>
            (d2, OpenFileError(Plain("failed to determine if existing file was empty (" + item.filename + "): "
                                     + statErr.message), false))
          case Ok(size) =>
            if size > 0 then (d2, OpenFileError(ErrExist, true))
            else
              var (d3, reopened) := OpenWriteOnlySpec(d2, filePath + "/" + item.filename);
              (d3, GotFile(if reopened.Opened? then File(reopened.path) else NilFile, cleanPath))
  }

  /** The outcome of `saveMedia`: the disk afterwards, the error returned, and
      whether `Get` was called. */
  datatype SaveResult = SaveResult(disk: Disk, err: Option<Error>, fetched: bool)

  /** `saveMedia`, with the deferred closer run on every path that got a handle. */
  function SaveMediaSpec(d: Disk, outputDir: Path, item: MediaItem, get: MediaItem -> Result<Bytes>): SaveResult
  {
    var (d1, openResult) := OpenFileSpec(d, outputDir, item);
    match openResult
    case OpenFileError(err, isExist) =>
      if isExist then SaveResult(d1, None, false) else SaveResult(d1, Some(err), false)
    case GotFile(f, stampPath) =>
      match get(item)
      case Fail(getErr) =>
        SaveResult(ChtimesSpec(d1, stampPath, item.creationTime.instant),
                   Some(Plain("failed to read " + item.filename + ": " + getErr.message)), true)
      case Ok(bytes) =>
        var (d2, writeErr) := WriteSpec(d1, f, bytes);
        var d3 := ChtimesSpec(d2, stampPath, item.creationTime.instant);
        if writeErr.Some? then
          SaveResult(d3, Some(Plain("failed to write " + item.filename + ": " + writeErr.value.message)), true)
        else
          SaveResult(d3, None, true)
  }

  /** The local file system the program writes to. */
  class FileSystem {
    var files: map<Path, Bytes>
    var dirs: set<Path>
    var mtimes: map<Path, int>
    const faults: set<(OsOp, Path)>

    function State(): Disk
      reads this
    {
      Disk(files, dirs, mtimes, faults)
    }

    constructor (disk: Disk)
      ensures State() == disk
    {
      files, dirs, mtimes := disk.files, disk.dirs, disk.mtimes;
      faults := disk.faults;
    }

    method MkdirAll(p: Path) returns (err: Option<Error>)
      modifies this
      ensures (State(), err) == MkdirAllSpec(old(State()), p)
    {
      if (MkdirOp, p) in faults {
        err := Some(PathError("mkdir", p, EIO));
      } else {
        dirs := dirs + {p} + Ancestors(p);
        err := None;
      }
    }

    method CreateExclusive(p: Path) returns (r: OpenResult)
      modifies this
      ensures (State(), r) == CreateExclusiveSpec(old(State()), p)
    {
      if (OpenOp, p) in faults {
        r := OpenError(PathError("open", p, EIO), false);
      } else if p in files {
        r := OpenError(PathError("open", p, EEXIST), true);
      } else if Parent(p) !in dirs {
        r := OpenError(PathError("open", p, ENOENT), false);
      } else {
        files := files[p := []];
        r := Opened(p);
      }
    }

    method OpenWriteOnly(p: Path) returns (r: OpenResult)
      modifies this
      ensures (State(), r) == OpenWriteOnlySpec(old(State()), p)
    {
      if (OpenOp, p) in faults {
        r := OpenError(PathError("open", p, EIO), false);
      } else if p in files {
        r := Opened(p);
      } else if Parent(p) !in dirs {
        r := OpenError(PathError("open", p, ENOENT), false);
      } else {
        files := files[p := []];
        r := Opened(p);
      }
    }

    method Stat(p: Path) returns (r: Result<nat>)
      ensures r == StatSpec(State(), p)
    {
      if (StatOp, p) in faults {
        r := Fail(PathError("stat", p, EIO));
      } else if p in files {
        r := Ok(|files[p]|);
      } else {
        r := Fail(PathError("stat", p, ENOENT));
      }
    }

    method Write(h: Handle, b: Bytes) returns (err: Option<Error>)
      modifies this
      ensures (State(), err) == WriteSpec(old(State()), h, b)
    {
      match h
      case NilFile =>
        err := Some(ErrInvalid);
      case File(p) =>
        if (WriteOp, p) in faults {
          err := Some(PathError("write", p, EIO));
        } else {
          files := files[p := Overwrite(if p in files then files[p] else [], b)];
          err := None;
        }
    }

    method Chtimes(p: Path, t: int)
      modifies this
      ensures State() == ChtimesSpec(old(State()), p, t)
    {
      if (ChtimesOp, p) !in faults && p in files {
        mtimes := mtimes[p := t];
      }
    }

    /** `openFile`. */
    method OpenFile(outputDir: Path, item: MediaItem) returns (r: OpenFileResult)
      modifies this
      ensures (State(), r) == OpenFileSpec(old(State()), outputDir, item)
    {
      var filePath := BuildPath(outputDir, item.creationTime);
      var mkdirErr := MkdirAll(filePath);
      if mkdirErr.Some? {
        return OpenFileError(Plain("failed to create directory structure for media: " + mkdirErr.value.message), false);
      }
      var cleanPath := filePath + "/" + NameCleaner(item.filename);
      var created := CreateExclusive(cleanPath);
      match created
      case Opened(p) =>
        r := GotFile(File(p), cleanPath);
      case OpenError(err, isExist) =>
        if !isExist {
          return OpenFileError(Plain("failed to open file for media item " + ItemText(item) + ": " + err.message), false);
        }
        var info := Stat(cleanPath);
        if info.Fail? {
          return OpenFileError(Plain("failed to determine if existing file was empty (" + item.filename + "): "
                                     + info.error.message), false);
        }
        if info.value > 0 {
          return OpenFileError(ErrExist, true);
        }
        var reopened := OpenWriteOnly(filePath + "/" + item.filename);
        r := GotFile(if reopened.Opened? then File(reopened.path) else NilFile, cleanPath);
    }

    /** `saveMedia`: `get` stands for the client's `Get`. */
    method SaveMedia(outputDir: Path, item: MediaItem, get: MediaItem -> Result<Bytes>)
      returns (err: Option<Error>, fetched: bool)
      modifies this
      ensures SaveResult(State(), err, fetched) == SaveMediaSpec(old(State()), outputDir, item, get)
    {
      var openResult := OpenFile(outputDir, item);
      if openResult.OpenFileError? {
        return if openResult.isExist then None else Some(openResult.err), false;
      }
      fetched := true;
      match get(item) {
        case Fail(getErr) =>
          err := Some(Plain("failed to read " + item.filename + ": " + getErr.message));
        case Ok(bytes) =>
          var writeErr := Write(openResult.file, bytes);
          err := if writeErr.Some? then Some(Plain("failed to write " + item.filename + ": " + writeErr.value.message))
                 else None;
      }
      Chtimes(openResult.stampPath, item.creationTime.instant);
    }
  }

  /** The parent of `dir/name` is `dir` when the name holds no '/'. */
  lemma {:induction false} ParentOfChild(dir: Path, name: Path)
    requires '/' !in name
    ensures Parent(dir + "/" + name) == dir
    decreases |name|
  {
    var p := dir + "/" + name;
    if name == [] {
      assert p[..|p| - 1] == dir;
    } else {
      assert p[|p| - 1] == name[|name| - 1];
      assert p[..|p| - 1] == dir + "/" + name[..|name| - 1];
      assert '/' !in name[..|name| - 1];
      ParentOfChild(dir, name[..|name| - 1]);
    }
  }

  /** None of the calls `saveMedia` makes in this state fails with an I/O error. */
  predicate Healthy(d: Disk, outputDir: Path, item: MediaItem)
  {
    var p := CleanPath(outputDir, item);
    && (MkdirOp, BuildPath(outputDir, item.creationTime)) !in d.faults
    && (OpenOp, p) !in d.faults && (StatOp, p) !in d.faults
    && (WriteOp, p) !in d.faults && (ChtimesOp, p) !in d.faults
  }

  /** `Get` is called exactly when `openFile` produced a handle: never before,
      and never for a skipped or failed open. */
  lemma SaveMediaFetchesIffHandle(d: Disk, outputDir: Path, item: MediaItem, get: MediaItem -> Result<Bytes>)
    ensures SaveMediaSpec(d, outputDir, item, get).fetched <==> OpenFileSpec(d, outputDir, item).1.GotFile?
    ensures !SaveMediaSpec(d, outputDir, item, get).fetched ==>
              SaveMediaSpec(d, outputDir, item, get).disk == OpenFileSpec(d, outputDir, item).0
  {
  }

  /** `saveMedia` succeeds without downloading exactly when the item's file
      already exists with contents (and the directory, open and stat calls work);
      then no file and no timestamp changes. */
  lemma SaveMediaSkipsIff(d: Disk, outputDir: Path, item: MediaItem, get: MediaItem -> Result<Bytes>)
    ensures var r := SaveMediaSpec(d, outputDir, item, get);
      var p := CleanPath(outputDir, item);
      (r.err.None? && !r.fetched)
        <==> (&& (MkdirOp, BuildPath(outputDir, item.creationTime)) !in d.faults
              && (OpenOp, p) !in d.faults && (StatOp, p) !in d.faults
              && p in d.files && |d.files[p]| > 0)
    ensures var r := SaveMediaSpec(d, outputDir, item, get);
      (r.err.None? && !r.fetched) ==> r.disk.files == d.files && r.disk.mtimes == d.mtimes
  {
  }

  /** The error paths of `openFile`: a failing `MkdirAll`, an open error for
      which `os.IsExist` does not hold, and a failing stat of an existing file
      each end `saveMedia` with the wrapped error, before `Get` is called and
      with no file touched; only the directories `MkdirAll` made remain. */
  lemma SaveMediaFailsBeforeFetch(d: Disk, outputDir: Path, item: MediaItem, get: MediaItem -> Result<Bytes>)
    ensures var dir := BuildPath(outputDir, item.creationTime);
      var r := SaveMediaSpec(d, outputDir, item, get);
      (MkdirOp, dir) in d.faults ==>
        r == SaveResult(d, Some(Plain("failed to create directory structure for media: " + PathError("mkdir", dir, EIO).message)),
                        false)
    ensures var dir := BuildPath(outputDir, item.creationTime);
      var p := CleanPath(outputDir, item);
      var r := SaveMediaSpec(d, outputDir, item, get);
      (MkdirOp, dir) !in d.faults && (OpenOp, p) in d.faults ==>
        r == SaveResult(d.(dirs := d.dirs + {dir} + Ancestors(dir)),
                        Some(Plain("failed to open file for media item " + ItemText(item) + ": " + PathError("open", p, EIO).message)),
                        false)
    ensures var dir := BuildPath(outputDir, item.creationTime);
      var p := CleanPath(outputDir, item);
      var r := SaveMediaSpec(d, outputDir, item, get);
      (MkdirOp, dir) !in d.faults && (OpenOp, p) !in d.faults && p in d.files && (StatOp, p) in d.faults ==>
        r == SaveResult(d.(dirs := d.dirs + {dir} + Ancestors(dir)),
                        Some(Plain("failed to determine if existing file was empty (" + item.filename
                                   + "): " + PathError("stat", p, EIO).message)),
                        false)
  {
  }

  /** `openFile` for a missing item whose directory and open calls work: it
      creates the directories, creates the cleaned path empty and hands back a
      handle on it, which the closer restamps. */
  lemma OpenFileCreatesMissing(d: Disk, outputDir: Path, item: MediaItem)
    requires (MkdirOp, BuildPath(outputDir, item.creationTime)) !in d.faults
    requires (OpenOp, CleanPath(outputDir, item)) !in d.faults
    requires CleanPath(outputDir, item) !in d.files
    ensures var r := OpenFileSpec(d, outputDir, item);
      var dir := BuildPath(outputDir, item.creationTime);
      var p := CleanPath(outputDir, item);
      && r.1 == GotFile(File(p), p)
      && r.0 == d.(files := d.files[p := []], dirs := d.dirs + {dir} + Ancestors(dir))
  {
    NameCleanerFixesPlainNames(item.filename);
    ParentOfChild(BuildPath(outputDir, item.creationTime), NameCleaner(item.filename));
  }

  /** A missing file is created, downloaded into and stamped with the item's
      creation time. */
  lemma SaveMediaCreatesMissing(d: Disk, outputDir: Path, item: MediaItem, get: MediaItem -> Result<Bytes>)
    requires Healthy(d, outputDir, item)
    requires CleanPath(outputDir, item) !in d.files
    requires get(item).Ok?
    ensures var r := SaveMediaSpec(d, outputDir, item, get);
      var p := CleanPath(outputDir, item);
      && r.fetched && r.err == None
      && r.disk.files == d.files[p := get(item).value]
      && r.disk.mtimes == d.mtimes[p := item.creationTime.instant]
  {
    OpenFileCreatesMissing(d, outputDir, item);
  }

  /** `saveMedia` opens the file before it downloads: when the download of a
      missing item fails, the file it created stays behind empty and stamped,
      and the error names the item; the next run reopens it as a leftover. */
  lemma SaveMediaGetFailureLeavesEmptyFile(d: Disk, outputDir: Path, item: MediaItem, get: MediaItem -> Result<Bytes>)
    requires Healthy(d, outputDir, item)
    requires CleanPath(outputDir, item) !in d.files
    requires get(item).Fail?
    ensures var r := SaveMediaSpec(d, outputDir, item, get);
      var p := CleanPath(outputDir, item);
      && r.fetched
      && r.err == Some(Plain("failed to read " + item.filename + ": " + get(item).error.message))
      && r.disk.files == d.files[p := []]
      && r.disk.mtimes == d.mtimes[p := item.creationTime.instant]
  {
    OpenFileCreatesMissing(d, outputDir, item);
  }

  /** A zero-length leftover of an interrupted run is reopened, downloaded into
      and stamped, when the name holds no '/'. */
  lemma SaveMediaRewritesEmptyLeftover(d: Disk, outputDir: Path, item: MediaItem, get: MediaItem -> Result<Bytes>)
    requires Healthy(d, outputDir, item)
    requires '/' !in item.filename
    requires CleanPath(outputDir, item) in d.files && d.files[CleanPath(outputDir, item)] == []
    requires get(item).Ok?
    ensures var r := SaveMediaSpec(d, outputDir, item, get);
      var p := CleanPath(outputDir, item);
      && r.fetched && r.err == None
      && r.disk.files == d.files[p := get(item).value]
      && r.disk.mtimes == d.mtimes[p := item.creationTime.instant]
  {
    NameCleanerFixesPlainNames(item.filename);
    assert RawPath(outputDir, item) == CleanPath(outputDir, item);
  }

  /** For a name with a '/', line 104 reopens a different path from the one
      `openFile` created. */
  lemma RawPathDiffers(outputDir: Path, item: MediaItem)
    requires '/' in item.filename
    ensures RawPath(outputDir, item) != CleanPath(outputDir, item)
  {
    var dir := BuildPath(outputDir, item.creationTime);
    NameCleanerFixesPlainNames(item.filename);
    var raw := RawPath(outputDir, item);
    var p := CleanPath(outputDir, item);
    assert raw[|dir| + 1..] == item.filename;
    assert p[|dir| + 1..] == NameCleaner(item.filename);
  }

  /** An empty leftover at the cleaned path is reopened (line 104) under the
      raw name: `openFile` hands back that handle, with the cleaned path to
      restamp, and at most creates an empty file at the raw path. */
  lemma OpenFileReopensLeftover(d: Disk, outputDir: Path, item: MediaItem)
    requires Healthy(d, outputDir, item)
    requires CleanPath(outputDir, item) in d.files && d.files[CleanPath(outputDir, item)] == []
    ensures var (e, res) := OpenFileSpec(d, outputDir, item);
      var raw := RawPath(outputDir, item);
      && res.GotFile? && res.stampPath == CleanPath(outputDir, item)
      && (res.file.File? ==> res.file.path == raw)
      && (e.files == d.files || e.files == d.files[raw := []])
  {
  }

  /** Line 104 reopens the raw name: for a name with a '/', a zero-length
      leftover at the cleaned path is downloaded for again but stays empty. */
  lemma SaveMediaMissesLeftoverOfSlashName(d: Disk, outputDir: Path, item: MediaItem, get: MediaItem -> Result<Bytes>)
    requires Healthy(d, outputDir, item)
    requires '/' in item.filename
    requires CleanPath(outputDir, item) in d.files && d.files[CleanPath(outputDir, item)] == []
    ensures var r := SaveMediaSpec(d, outputDir, item, get);
      var p := CleanPath(outputDir, item);
      r.fetched && p in r.disk.files && r.disk.files[p] == []
  {
    var p := CleanPath(outputDir, item);
    RawPathDiffers(outputDir, item);
    OpenFileReopensLeftover(d, outputDir, item);
    var afterOpen := OpenFileSpec(d, outputDir, item);
    assert p in afterOpen.0.files && afterOpen.0.files[p] == [];
    if get(item).Ok? {
      var written := WriteSpec(afterOpen.0, afterOpen.1.file, get(item).value);
      assert p in written.0.files && written.0.files[p] == [];
    }
  }

  /** ... and when the raw name's directory does not exist, the reopen yields a
      nil file and the write through it fails. */
  lemma SaveMediaSlashNameWriteFails(d: Disk, outputDir: Path, item: MediaItem, get: MediaItem -> Result<Bytes>)
    requires Healthy(d, outputDir, item)
    requires '/' in item.filename
    requires CleanPath(outputDir, item) in d.files && d.files[CleanPath(outputDir, item)] == []
    requires get(item).Ok?
    requires RawPath(outputDir, item) !in d.files
    requires var dir := BuildPath(outputDir, item.creationTime);
      Parent(RawPath(outputDir, item)) !in d.dirs + {dir} + Ancestors(dir)
    ensures SaveMediaSpec(d, outputDir, item, get).err
         == Some(Plain("failed to write " + item.filename + ": " + ErrInvalid.message))
  {
    RawPathDiffers(outputDir, item);
  }

  /** One disk grows out of another: same faults, no directory lost, no file
      removed or shortened. */
  ghost predicate Grows(d: Disk, e: Disk)
  {
    && e.faults == d.faults
    && d.dirs <= e.dirs
    && forall q :: q in d.files ==> q in e.files && |e.files[q]| >= |d.files[q]|
  }

  lemma GrowsTrans(d: Disk, e: Disk, f: Disk)
    requires Grows(d, e) && Grows(e, f)
    ensures Grows(d, f)
  {
  }

  lemma OpenFileMonotone(d: Disk, outputDir: Path, item: MediaItem)
    ensures Grows(d, OpenFileSpec(d, outputDir, item).0)
  {
    var dir := BuildPath(outputDir, item.creationTime);
    var (d1, mkdirErr) := MkdirAllSpec(d, dir);
    if mkdirErr.None? {
      var (d2, created) := CreateExclusiveSpec(d1, dir + "/" + NameCleaner(item.filename));
      assert Grows(d, d2);
      var (d3, _) := OpenWriteOnlySpec(d2, dir + "/" + item.filename);
      assert Grows(d, d3);
    }
  }

  /** `saveMedia` never removes a file, never shortens one and never forgets a
      directory. */
  lemma SaveMediaMonotone(d: Disk, outputDir: Path, item: MediaItem, get: MediaItem -> Result<Bytes>)
    ensures Grows(d, SaveMediaSpec(d, outputDir, item, get).disk)
  {
    var (d1, openResult) := OpenFileSpec(d, outputDir, item);
    OpenFileMonotone(d, outputDir, item);
    if openResult.GotFile? && get(item).Ok? {
      var (d2, _) := WriteSpec(d1, openResult.file, get(item).value);
      assert Grows(d1, d2);
    }
  }

  /** After a successful `saveMedia` of an item whose name holds no '/' and
      whose download is not empty, its file has contents. */
  lemma SaveMediaLeavesContents(d: Disk, outputDir: Path, item: MediaItem, get: MediaItem -> Result<Bytes>)
    requires '/' !in item.filename
    requires get(item).Ok? ==> |get(item).value| > 0
    requires SaveMediaSpec(d, outputDir, item, get).err == None
    ensures var r := SaveMediaSpec(d, outputDir, item, get);
      CleanPath(outputDir, item) in r.disk.files && |r.disk.files[CleanPath(outputDir, item)]| > 0
  {
    NameCleanerFixesPlainNames(item.filename);
    assert RawPath(outputDir, item) == CleanPath(outputDir, item);
  }
}
