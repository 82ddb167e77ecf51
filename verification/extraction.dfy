/** The pagination driver `Extract`: list a page with the current token, run
    the page's item tasks, stop at the first task error, add the page's item
    count to the total, and go on with the page's continuation token until it
    is empty.

    The media service's `List` is a finite script standing for any sequence of
    replies the service may give: the k-th call receives the k-th reply,
    whatever token it carries. Its `Get` is a function of the item. The
    errgroup that runs a page's tasks is modelled as running them one after
    another, stopping at the first error. */
module Extraction {
  import opened Data
  import opened Paths
  import opened Storage

  /** What one `List` call returns. */
  type ListReply = Result<MediaResponse>

  /** A reply after which the driver lists no further page. */
  predicate Ends(reply: ListReply)
  {
    reply.Fail? || reply.value.nextPageToken == ""
  }

  /** A listing that ends: its last reply is an error or has no continuation token. */
  predicate Finite(script: seq<ListReply>)
  {
    |script| > 0 && Ends(script[|script| - 1])
  }

  /** What one task of the errgroup does: from the disk before it, its outcome. */
  type TaskFn = (Disk, MediaItem) -> SaveResult

  /** What `Extract` starts for an item: in read-only mode it only derives
      the item's directory and name for printing, and touches neither the
      network nor the disk; otherwise it is `saveMedia`. */
  function ItemTask(outputDir: Path, readOnly: bool, get: MediaItem -> Result<Bytes>): TaskFn
  {
    (d: Disk, item: MediaItem) => if readOnly then SaveResult(d, None, false) else SaveMediaSpec(d, outputDir, item, get)
  }

  /** The outcome of a page's tasks: the disk afterwards, the first error, and
      the items whose content was requested, in order. */
  datatype PageResult = PageResult(disk: Disk, err: Option<Error>, fetched: seq<MediaItem>)

  /** The errgroup over one page: its item tasks in order, stopping at the first error. */
  function RunTasks(d: Disk, items: seq<MediaItem>, task: TaskFn): PageResult
    decreases |items|
  {
    if items == [] then PageResult(d, None, [])
    else
      var s := task(d, items[0]);
      var here := if s.fetched then [items[0]] else [];
      if s.err.Some? then PageResult(s.disk, s.err, here)
      else
        var rest := RunTasks(s.disk, items[1..], task);
        PageResult(rest.disk, rest.err, here + rest.fetched)
  }

  /** How a run ends: normally with the total it prints, with no error because
      the listing was cancelled, or with an error. */
  datatype Status = Completed(total: int) | Canceled | Failed(err: Error)

  /** A whole run: how it ended, the tokens passed to `List` in order, the disk
      afterwards, and the items whose content was requested. */
  datatype Run = Run(status: Status, calls: seq<string>, disk: Disk, fetched: seq<MediaItem>)

  /** The driver from the point where `List` is about to be called with
      `token`, having made `calls`, counted `total` and requested `fetched`. */
  function RunFrom(d: Disk, script: seq<ListReply>, task: TaskFn,
                   token: string, total: int, calls: seq<string>, fetched: seq<MediaItem>): Run
    requires Finite(script) && |calls| < |script|
    decreases |script| - |calls|
  {
    var calls' := calls + [token];
    match script[|calls|]
    case Fail(e) =>
      if e.canceled then Run(Canceled, calls', d, fetched)
      else Run(Failed(Plain("failed to get mediaitems: " + e.message)), calls', d, fetched)
    case Ok(page) =>
      var total' := total + |page.mediaItems|;
      var p := RunTasks(d, page.mediaItems, task);
      if p.err.Some? then Run(Failed(p.err.value), calls', p.disk, fetched + p.fetched)
      else if page.nextPageToken == "" then Run(Completed(total'), calls', p.disk, fetched + p.fetched)
      else RunFrom(p.disk, script, task, page.nextPageToken, total', calls', fetched + p.fetched)
  }

  /** `task` is the item task `Extract` starts with these settings. The
      quantifier for `saveMedia` is instantiated only where `saveMedia`'s
      function is mentioned, so the pagination proofs never expand it. */
  ghost predicate Performs(task: TaskFn, outputDir: Path, readOnly: bool, get: MediaItem -> Result<Bytes>)
  {
    if readOnly then
      forall d: Disk, item: MediaItem {:trigger task(d, item)} :: task(d, item) == SaveResult(d, None, false)
    else
      forall d: Disk, item: MediaItem {:trigger SaveMediaSpec(d, outputDir, item, get)} ::
        task(d, item) == SaveMediaSpec(d, outputDir, item, get)
  }

  lemma ItemTaskPerforms(outputDir: Path, readOnly: bool, get: MediaItem -> Result<Bytes>)
    ensures Performs(ItemTask(outputDir, readOnly, get), outputDir, readOnly, get)
  {
  }

  /** `Extract` as a function of the disk it starts from and of its item task. */
  function ExtractSpec(d: Disk, script: seq<ListReply>, task: TaskFn): Run
    requires Finite(script)
  {
    RunFrom(d, script, task, "", 0, [], [])
  }

  /** A listed page, seen from the loop that lists it: its tasks either end
      the run or leave the driver listing the next page. */
  lemma RunFromPage(d: Disk, script: seq<ListReply>, task: TaskFn, token: string, total: int,
                    calls: seq<string>, fetched: seq<MediaItem>, page: MediaResponse, p: PageResult)
    requires Finite(script) && |calls| < |script|
    requires script[|calls|] == Ok(page) && p == RunTasks(d, page.mediaItems, task)
    ensures var r := RunFrom(d, script, task, token, total, calls, fetched);
      var total' := total + |page.mediaItems|;
      && (p.err.Some? ==> r == Run(Failed(p.err.value), calls + [token], p.disk, fetched + p.fetched))
      && (p.err.None? && page.nextPageToken == "" ==>
            r == Run(Completed(total'), calls + [token], p.disk, fetched + p.fetched))
      && (p.err.None? && page.nextPageToken != "" ==>
            |calls| + 1 < |script| &&
            r == RunFrom(p.disk, script, task, page.nextPageToken, total', calls + [token], fetched + p.fetched))
  {
  }

  /** One step of the errgroup, seen from the loop that runs it: with the
      tasks before `j` done, task `j` either ends the page or leaves the rest. */
  lemma {:induction false} RunTasksSuffixStep(whole: PageResult, d: Disk, items: seq<MediaItem>, j: nat,
                                              task: TaskFn, done: seq<MediaItem>, s: SaveResult)
    requires j < |items| && s == task(d, items[j])
    requires var rest := RunTasks(d, items[j..], task);
      whole == PageResult(rest.disk, rest.err, done + rest.fetched)
    ensures var fetched := done + (if s.fetched then [items[j]] else []);
      if s.err.Some? then whole == PageResult(s.disk, s.err, fetched)
      else var rest := RunTasks(s.disk, items[j + 1..], task);
        whole == PageResult(rest.disk, rest.err, fetched + rest.fetched)
  {
    assert items[j..][0] == items[j] && items[j..][1..] == items[j + 1..];
    var here := if s.fetched then [items[j]] else [];
    var rest := RunTasks(s.disk, items[j + 1..], task);
    assert done + (here + rest.fetched) == (done + here) + rest.fetched;
  }

  /** One item task on the file system. */
  method RunTask(fs: FileSystem, ghost task: TaskFn, outputDir: Path, item: MediaItem, readOnly: bool,
                 get: MediaItem -> Result<Bytes>) returns (err: Option<Error>, fetched: bool)
    requires Performs(task, outputDir, readOnly, get)
    modifies fs
    ensures SaveResult(fs.State(), err, fetched) == task(old(fs.State()), item)
  {
    if readOnly {
      return None, false;
    }
    err, fetched := fs.SaveMedia(outputDir, item, get);
  }

  /** The errgroup over one page's items. */
  method RunPage(fs: FileSystem, ghost task: TaskFn, outputDir: Path, items: seq<MediaItem>, readOnly: bool,
                 get: MediaItem -> Result<Bytes>) returns (err: Option<Error>, fetched: seq<MediaItem>)
    requires Performs(task, outputDir, readOnly, get)
    modifies fs
    ensures PageResult(fs.State(), err, fetched) == RunTasks(old(fs.State()), items, task)
  {
    fetched := [];
    var j := 0;
    while j < |items|
      invariant 0 <= j <= |items|
      invariant var rest := RunTasks(fs.State(), items[j..], task);
        RunTasks(old(fs.State()), items, task) == PageResult(rest.disk, rest.err, fetched + rest.fetched)
      decreases |items| - j
    {
      ghost var before := fs.State();
      var taskErr, taskFetched := RunTask(fs, task, outputDir, items[j], readOnly, get);
      RunTasksSuffixStep(RunTasks(old(fs.State()), items, task), before, items, j,
                         task, fetched, SaveResult(fs.State(), taskErr, taskFetched));
      fetched := fetched + if taskFetched then [items[j]] else [];
      if taskErr.Some? {
        return taskErr, fetched;
      }
      j := j + 1;
    }
    err := None;
  }

  /** `Extract`: `task` stands for the item task these settings select (see
      `Performs` and `ItemTaskPerforms`). */
  method Extract(fs: FileSystem, script: seq<ListReply>, outputDir: Path, readOnly: bool,
                 get: MediaItem -> Result<Bytes>, ghost task: TaskFn)
    returns (status: Status, calls: seq<string>, fetched: seq<MediaItem>)
    requires Finite(script) && Performs(task, outputDir, readOnly, get)
    modifies fs
    ensures Run(status, calls, fs.State(), fetched) == ExtractSpec(old(fs.State()), script, task)
  {
    var total := 0;
    var nextPageToken := "";
    calls, fetched := [], [];
    var done := false;
    while !done
      invariant !done ==> |calls| < |script|
      invariant !done ==> RunFrom(fs.State(), script, task, nextPageToken, total, calls, fetched)
                          == ExtractSpec(old(fs.State()), script, task)
      invariant done ==> Run(Completed(total), calls, fs.State(), fetched) == ExtractSpec(old(fs.State()), script, task)
      decreases |script| - |calls|, !done
    {
      var medias := script[|calls|];
      if medias.Fail? {
        calls := calls + [nextPageToken];
        if medias.error.canceled {
          return Canceled, calls, fetched;
        }
        return Failed(Plain("failed to get mediaitems: " + medias.error.message)), calls, fetched;
      }
      ghost var before := fs.State();
      var err, pageFetched := RunPage(fs, task, outputDir, medias.value.mediaItems, readOnly, get);
      RunFromPage(before, script, task, nextPageToken, total, calls, fetched, medias.value,
                  PageResult(fs.State(), err, pageFetched));
      total := total + |medias.value.mediaItems|;
      calls := calls + [nextPageToken];
      fetched := fetched + pageFetched;
      if err.Some? {
        return Failed(err.value), calls, fetched;
      }
      nextPageToken := medias.value.nextPageToken;
      done := nextPageToken == "";
    }
    status := Completed(total);
  }

  // ---------------------------------------------------------------------
  // The errgroup

  /** Running two lists of tasks one after the other is running their
      concatenation; once a task has failed, nothing after it starts. */
  lemma {:induction false} RunTasksAppend(d: Disk, xs: seq<MediaItem>, ys: seq<MediaItem>, task: TaskFn)
    ensures var p := RunTasks(d, xs, task);
      RunTasks(d, xs + ys, task)
      == if p.err.Some? then p
         else var q := RunTasks(p.disk, ys, task); PageResult(q.disk, q.err, p.fetched + q.fetched)
    decreases |xs|
  {
    if xs == [] {
      assert xs + ys == ys;
    } else {
      assert (xs + ys)[0] == xs[0] && (xs + ys)[1..] == xs[1..] + ys;
      var s := task(d, xs[0]);
      if s.err.None? {
        RunTasksAppend(s.disk, xs[1..], ys, task);
        var here := if s.fetched then [xs[0]] else [];
        var p' := RunTasks(s.disk, xs[1..], task);
        if p'.err.None? {
          var q := RunTasks(p'.disk, ys, task);
          assert here + (p'.fetched + q.fetched) == (here + p'.fetched) + q.fetched;
        }
      }
    }
  }

  /** The error a page reports is the first one: the items after a failed
      prefix make no difference. */
  lemma {:induction false} RunTasksStopsAtError(d: Disk, xs: seq<MediaItem>, ys: seq<MediaItem>, task: TaskFn)
    requires RunTasks(d, xs, task).err.Some?
    ensures RunTasks(d, xs + ys, task) == RunTasks(d, xs, task)
  {
    RunTasksAppend(d, xs, ys, task);
  }

  /** In read-only mode a page neither downloads nor changes the disk, and
      never fails. */
  lemma {:induction false} RunTasksReadOnly(d: Disk, items: seq<MediaItem>, task: TaskFn, outputDir: Path,
                                            get: MediaItem -> Result<Bytes>)
    requires Performs(task, outputDir, true, get)
    ensures RunTasks(d, items, task) == PageResult(d, None, [])
    decreases |items|
  {
    if items != [] {
      RunTasksReadOnly(d, items[1..], task, outputDir, get);
    }
  }

  // ---------------------------------------------------------------------
  // The pagination loop

  /** The number of items on the listed pages `lo` to `hi - 1`. */
  function ItemCount(script: seq<ListReply>, lo: nat, hi: nat): int
    requires lo <= hi <= |script|
    decreases hi - lo
  {
    if lo == hi then 0
    else (if script[lo].Ok? then |script[lo].value.mediaItems| else 0) + ItemCount(script, lo + 1, hi)
  }

  /** From call `lo` on, every call after the first uses the continuation
      token of the page before it, which is never empty. */
  predicate TokensChain(script: seq<ListReply>, calls: seq<string>, lo: nat)
    requires |calls| <= |script|
  {
    forall k :: lo <= k < |calls| - 1 ==>
      && script[k].Ok?
      && script[k].value.nextPageToken == calls[k + 1]
      && calls[k + 1] != ""
  }

  lemma TokensChainStep(script: seq<ListReply>, calls: seq<string>, lo: nat)
    requires lo + 1 < |calls| <= |script| && TokensChain(script, calls, lo + 1)
    requires script[lo].Ok? && script[lo].value.nextPageToken == calls[lo + 1] && calls[lo + 1] != ""
    ensures TokensChain(script, calls, lo)
  {
    forall k | lo <= k < |calls| - 1
      ensures script[k].Ok? && script[k].value.nextPageToken == calls[k + 1] && calls[k + 1] != ""
    {
      if k != lo {
        assert lo + 1 <= k < |calls| - 1;
      }
    }
  }

  /** From any point of the loop: the next call uses the current token, every
      later call uses the previous page's continuation token, which is never
      empty, and no reply beyond the script is asked for. */
  lemma {:induction false} RunFromCalls(d: Disk, script: seq<ListReply>, task: TaskFn, token: string, total: int,
                                        calls: seq<string>, fetched: seq<MediaItem>)
    requires Finite(script) && |calls| < |script|
    ensures var r := RunFrom(d, script, task, token, total, calls, fetched);
      && |calls| < |r.calls| <= |script|
      && r.calls[..|calls| + 1] == calls + [token]
      && TokensChain(script, r.calls, |calls|)
    decreases |script| - |calls|
  {
    var r := RunFrom(d, script, task, token, total, calls, fetched);
    if script[|calls|].Ok? && script[|calls|].value.nextPageToken != ""
       && RunTasks(d, script[|calls|].value.mediaItems, task).err.None? {
      var page := script[|calls|].value;
      var p := RunTasks(d, page.mediaItems, task);
      var calls' := calls + [token];
      RunFromContinues(d, script, task, token, total, calls, fetched);
      RunFromCalls(p.disk, script, task, page.nextPageToken, total + |page.mediaItems|, calls', fetched + p.fetched);
      assert r.calls[..|calls| + 1] == calls + [token] by {
        assert r.calls[..|calls| + 1] == r.calls[..|calls'| + 1][..|calls| + 1];
      }
      assert r.calls[|calls'|] == page.nextPageToken;
      TokensChainStep(script, r.calls, |calls|);
    } else {
      RunFromLastCall(d, script, task, token, total, calls, fetched);
      assert |r.calls| - 1 == |calls|;
    }
  }

  /** How a run ends, read off the last reply it received: a cancelled listing
      ends quietly, any other listing error is wrapped, a completed run ended on
      an empty token and reports every listed item, and a run that stopped on a
      page with more to come stopped because a task failed. */
  lemma {:induction false} RunFromStatus(d: Disk, script: seq<ListReply>, task: TaskFn, token: string, total: int,
                                         calls: seq<string>, fetched: seq<MediaItem>)
    requires Finite(script) && |calls| < |script|
    ensures var r := RunFrom(d, script, task, token, total, calls, fetched);
      |calls| < |r.calls| <= |script| &&
      var last := script[|r.calls| - 1];
      && (r.status.Canceled? <==> last.Fail? && last.error.canceled)
      && (last.Fail? && !last.error.canceled ==>
            r.status == Failed(Plain("failed to get mediaitems: " + last.error.message)))
      && (r.status.Completed? ==>
            && last.Ok? && last.value.nextPageToken == ""
            && r.status.total == total + ItemCount(script, |calls|, |r.calls|))
      && (last.Ok? && last.value.nextPageToken != "" ==> r.status.Failed?)
    decreases |script| - |calls|
  {
    RunFromCalls(d, script, task, token, total, calls, fetched);
    if script[|calls|].Ok? {
      var page := script[|calls|].value;
      var p := RunTasks(d, page.mediaItems, task);
      if p.err.None? && page.nextPageToken != "" {
        RunFromStatus(p.disk, script, task, page.nextPageToken, total + |page.mediaItems|,
                      calls + [token], fetched + p.fetched);
      }
    }
  }

  /** `Extract` lists the first page with the empty token and every later page
      with the continuation token of the page before, never an empty one. */
  lemma ExtractCallsFollowTokens(d: Disk, script: seq<ListReply>, task: TaskFn)
    requires Finite(script)
    ensures var r := ExtractSpec(d, script, task);
      && 1 <= |r.calls| <= |script|
      && r.calls[0] == ""
      && forall k :: 0 < k < |r.calls| ==>
           script[k - 1].Ok? && r.calls[k] == script[k - 1].value.nextPageToken && r.calls[k] != ""
  {
    RunFromCalls(d, script, task, "", 0, [], []);
    var r := ExtractSpec(d, script, task);
    assert r.calls[..1] == [""];
    forall k | 0 < k < |r.calls|
      ensures script[k - 1].Ok? && r.calls[k] == script[k - 1].value.nextPageToken && r.calls[k] != ""
    {
      assert 0 <= k - 1 < |r.calls| - 1;
    }
  }

  /** How `Extract` ends: cancellation is success without a total, any other
      listing error is wrapped, and a completed run counted every listed item
      and ended on an empty continuation token. */
  lemma {:induction false} ExtractOutcome(d: Disk, script: seq<ListReply>, task: TaskFn)
    requires Finite(script)
    ensures var r := ExtractSpec(d, script, task);
      1 <= |r.calls| <= |script| &&
      var last := script[|r.calls| - 1];
      && (r.status.Canceled? <==> last.Fail? && last.error.canceled)
      && (last.Fail? && !last.error.canceled ==>
            r.status == Failed(Plain("failed to get mediaitems: " + last.error.message)))
      && (r.status.Completed? ==>
            last.Ok? && last.value.nextPageToken == "" && r.status.total == ItemCount(script, 0, |r.calls|))
      && (last.Ok? && last.value.nextPageToken != "" ==> r.status.Failed?)
  {
    RunFromStatus(d, script, task, "", 0, [], []);
  }

  /** A page whose only continuation is "nextpage", followed by a last page:
      exactly two `List` calls, with "" and then "nextpage". */
  lemma ExtractTwoPages(d: Disk, items: seq<MediaItem>, task: TaskFn)
    ensures var script := [Ok(MediaResponse([], "nextpage")), Ok(MediaResponse(items, ""))];
      Finite(script) && ExtractSpec(d, script, task).calls == ["", "nextpage"]
  {
    var script := [Ok(MediaResponse([], "nextpage")), Ok(MediaResponse(items, ""))];
    assert Finite(script);
    assert RunTasks(d, [], task) == PageResult(d, None, []);
    var none: seq<MediaItem> := [];
    assert [] + [""] == [""] && none + none == none;
    assert RunFrom(d, script, task, "", 0, [], []) == RunFrom(d, script, task, "nextpage", 0, [""], []);
    assert [""] + ["nextpage"] == ["", "nextpage"];
  }

  /** In read-only mode `Extract` leaves the disk as it was, downloads nothing,
      and can only fail because listing failed. */
  lemma {:induction false} RunFromReadOnly(d: Disk, script: seq<ListReply>, task: TaskFn, token: string, total: int,
                                           calls: seq<string>, fetched: seq<MediaItem>, outputDir: Path,
                                           get: MediaItem -> Result<Bytes>)
    requires Finite(script) && |calls| < |script|
    requires Performs(task, outputDir, true, get)
    ensures var r := RunFrom(d, script, task, token, total, calls, fetched);
      && |calls| < |r.calls| <= |script|
      && r.disk == d && r.fetched == fetched
      && (r.status.Failed? ==> script[|r.calls| - 1].Fail?)
    decreases |script| - |calls|
  {
    RunFromCalls(d, script, task, token, total, calls, fetched);
    if script[|calls|].Ok? {
      var page := script[|calls|].value;
      RunTasksReadOnly(d, page.mediaItems, task, outputDir, get);
      assert fetched + [] == fetched;
      if page.nextPageToken != "" {
        RunFromReadOnly(d, script, task, page.nextPageToken, total + |page.mediaItems|,
                        calls + [token], fetched, outputDir, get);
      }
    }
  }

  lemma ExtractReadOnly(d: Disk, script: seq<ListReply>, task: TaskFn, outputDir: Path, get: MediaItem -> Result<Bytes>)
    requires Finite(script) && Performs(task, outputDir, true, get)
    ensures var r := ExtractSpec(d, script, task);
      && 1 <= |r.calls| <= |script|
      && r.disk == d && r.fetched == []
      && (r.status.Failed? ==> script[|r.calls| - 1].Fail?)
  {
    RunFromReadOnly(d, script, task, "", 0, [], [], outputDir, get);
  }

  // ---------------------------------------------------------------------
  // Running twice

  /** The file at `p` exists and has contents. */
  predicate Stored(files: map<Path, Bytes>, p: Path)
  {
    p in files && |files[p]| > 0
  }

  /** An item a finished run leaves on disk: its name holds no '/' (line 104
      would otherwise write elsewhere) and its download is not empty. */
  predicate Tidy(item: MediaItem, get: MediaItem -> Result<Bytes>)
  {
    '/' !in item.filename && (get(item).Ok? ==> |get(item).value| > 0)
  }

  predicate AllStored(files: map<Path, Bytes>, outputDir: Path, items: seq<MediaItem>)
  {
    forall i :: 0 <= i < |items| ==> Stored(files, CleanPath(outputDir, items[i]))
  }

  /** Every item listed on pages `lo` to `hi - 1` is stored. */
  predicate PagesStored(files: map<Path, Bytes>, outputDir: Path, script: seq<ListReply>, lo: nat, hi: nat)
    requires hi <= |script|
  {
    forall k :: lo <= k < hi && script[k].Ok? ==> AllStored(files, outputDir, script[k].value.mediaItems)
  }

  /** Every item the script can list is tidy. */
  predicate ScriptTidy(script: seq<ListReply>, get: MediaItem -> Result<Bytes>)
  {
    forall k, i :: 0 <= k < |script| && script[k].Ok? && 0 <= i < |script[k].value.mediaItems| ==>
      Tidy(script[k].value.mediaItems[i], get)
  }

  /** One more page: the items of page `lo`, stored before the rest of the
      run, are still stored after it, next to the pages the rest stored. */
  lemma PagesStoredStep(d: Disk, e: Disk, outputDir: Path, script: seq<ListReply>, lo: nat, next: nat, hi: nat,
                        completed: bool)
    requires lo < hi <= |script| && next == lo + 1 && Grows(d, e)
    requires script[lo].Ok? ==> AllStored(d.files, outputDir, script[lo].value.mediaItems)
    requires completed ==> PagesStored(e.files, outputDir, script, next, hi)
    ensures completed ==> PagesStored(e.files, outputDir, script, lo, hi)
  {
    if completed {
      forall k | lo <= k < hi && script[k].Ok?
        ensures AllStored(e.files, outputDir, script[k].value.mediaItems)
      {
        if k == lo {
          AllStoredGrows(d, e, outputDir, script[lo].value.mediaItems);
        }
      }
    }
  }

  lemma AllStoredGrows(d: Disk, e: Disk, outputDir: Path, items: seq<MediaItem>)
    requires Grows(d, e) && AllStored(d.files, outputDir, items)
    ensures AllStored(e.files, outputDir, items)
  {
    forall i | 0 <= i < |items| ensures Stored(e.files, CleanPath(outputDir, items[i])) {
      assert Stored(d.files, CleanPath(outputDir, items[i]));
    }
  }

  lemma TaskGrows(d: Disk, item: MediaItem, task: TaskFn, outputDir: Path, readOnly: bool,
                  get: MediaItem -> Result<Bytes>)
    requires Performs(task, outputDir, readOnly, get)
    ensures Grows(d, task(d, item).disk)
  {
    if !readOnly {
      assert task(d, item) == SaveMediaSpec(d, outputDir, item, get);
      SaveMediaMonotone(d, outputDir, item, get);
    }
  }

  /** A page never removes or shortens a file. */
  lemma {:induction false} RunTasksGrows(d: Disk, items: seq<MediaItem>, task: TaskFn, outputDir: Path, readOnly: bool,
                                         get: MediaItem -> Result<Bytes>)
    requires Performs(task, outputDir, readOnly, get)
    ensures Grows(d, RunTasks(d, items, task).disk)
    decreases |items|
  {
    if items != [] {
      var s := task(d, items[0]);
      TaskGrows(d, items[0], task, outputDir, readOnly, get);
      if s.err.None? {
        RunTasksGrows(s.disk, items[1..], task, outputDir, readOnly, get);
        GrowsTrans(d, s.disk, RunTasks(s.disk, items[1..], task).disk);
      }
    }
  }

  /** A page whose tasks all succeed leaves every tidy item of it stored. */
  lemma {:induction false} RunTasksStores(d: Disk, items: seq<MediaItem>, task: TaskFn, outputDir: Path,
                                          get: MediaItem -> Result<Bytes>)
    requires Performs(task, outputDir, false, get)
    requires forall i :: 0 <= i < |items| ==> Tidy(items[i], get)
    requires RunTasks(d, items, task).err.None?
    ensures AllStored(RunTasks(d, items, task).disk.files, outputDir, items)
    decreases |items|
  {
    if items != [] {
      var s := task(d, items[0]);
      assert s == SaveMediaSpec(d, outputDir, items[0], get);
      SaveMediaLeavesContents(d, outputDir, items[0], get);
      var rest := RunTasks(s.disk, items[1..], task);
      RunTasksStores(s.disk, items[1..], task, outputDir, get);
      RunTasksGrows(s.disk, items[1..], task, outputDir, false, get);
      AllStoredGrows(s.disk, rest.disk, outputDir, [items[0]]);
      forall i | 0 <= i < |items| ensures Stored(rest.disk.files, CleanPath(outputDir, items[i])) {
        if i == 0 {
          assert Stored(rest.disk.files, CleanPath(outputDir, [items[0]][0]));
        } else {
          assert items[i] == items[1..][i - 1];
        }
      }
    }
  }

  /** On a disk without faults, a page whose items are all stored skips every
      item: no download, no error, no file or timestamp changed. */
  lemma {:induction false} RunTasksSkips(d: Disk, items: seq<MediaItem>, task: TaskFn, outputDir: Path,
                                         get: MediaItem -> Result<Bytes>)
    requires Performs(task, outputDir, false, get)
    requires d.faults == {} && AllStored(d.files, outputDir, items)
    ensures var p := RunTasks(d, items, task);
      && p.err.None? && p.fetched == []
      && p.disk.files == d.files && p.disk.mtimes == d.mtimes && p.disk.faults == {}
    decreases |items|
  {
    if items != [] {
      var s := task(d, items[0]);
      assert s == SaveMediaSpec(d, outputDir, items[0], get);
      assert Stored(d.files, CleanPath(outputDir, items[0]));
      SaveMediaSkipsIff(d, outputDir, items[0], get);
      SaveMediaMonotone(d, outputDir, items[0], get);
      assert AllStored(s.disk.files, outputDir, items[1..]) by {
        forall i | 0 <= i < |items[1..]| ensures Stored(s.disk.files, CleanPath(outputDir, items[1..][i])) {
          assert items[1..][i] == items[i + 1];
        }
      }
      RunTasksSkips(s.disk, items[1..], task, outputDir, get);
    }
  }

  /** A run never removes or shortens a file. */
  lemma {:induction false} RunFromGrows(d: Disk, script: seq<ListReply>, task: TaskFn, token: string, total: int,
                                        calls: seq<string>, fetched: seq<MediaItem>, outputDir: Path, readOnly: bool,
                                        get: MediaItem -> Result<Bytes>)
    requires Finite(script) && |calls| < |script|
    requires Performs(task, outputDir, readOnly, get)
    ensures Grows(d, RunFrom(d, script, task, token, total, calls, fetched).disk)
    decreases |script| - |calls|
  {
    if script[|calls|].Ok? {
      var page := script[|calls|].value;
      var p := RunTasks(d, page.mediaItems, task);
      RunTasksGrows(d, page.mediaItems, task, outputDir, readOnly, get);
      if p.err.None? && page.nextPageToken != "" {
        assert |calls| + 1 < |script| by {
          assert !Ends(script[|calls|]);
        }
        var r' := RunFrom(p.disk, script, task, page.nextPageToken, total + |page.mediaItems|,
                          calls + [token], fetched + p.fetched);
        RunFromGrows(p.disk, script, task, page.nextPageToken, total + |page.mediaItems|,
                     calls + [token], fetched + p.fetched, outputDir, readOnly, get);
        GrowsTrans(d, p.disk, r'.disk);
      }
    }
  }

  /** A run whose first reply is an error, or whose first page has a failing
      task, makes one call and does not complete. */
  lemma {:induction false} RunFromStopped(d: Disk, script: seq<ListReply>, task: TaskFn, token: string, total: int,
                       calls: seq<string>, fetched: seq<MediaItem>)
    requires Finite(script) && |calls| < |script|
    requires script[|calls|].Ok? ==> RunTasks(d, script[|calls|].value.mediaItems, task).err.Some?
    ensures var r := RunFrom(d, script, task, token, total, calls, fetched);
      r.calls == calls + [token] && !r.status.Completed?
  {
  }

  /** A run whose first page is processed without error and names a next
      page goes on from that page with the token it names. */
  lemma {:induction false} RunFromContinues(d: Disk, script: seq<ListReply>, task: TaskFn, token: string, total: int,
                         calls: seq<string>, fetched: seq<MediaItem>)
    requires Finite(script) && |calls| < |script|
    requires script[|calls|].Ok? && script[|calls|].value.nextPageToken != ""
    requires RunTasks(d, script[|calls|].value.mediaItems, task).err.None?
    ensures |calls| + 1 < |script|
    ensures var page := script[|calls|].value;
      var p := RunTasks(d, page.mediaItems, task);
      RunFrom(d, script, task, token, total, calls, fetched)
        == RunFrom(p.disk, script, task, page.nextPageToken, total + |page.mediaItems|, calls + [token], fetched + p.fetched)
  {
    assert !Ends(script[|calls|]);
  }

  /** A run whose first reply is an error, whose first page has a failing
      task, or whose first page names no next page, makes exactly one call. */
  lemma {:induction false} RunFromLastCall(d: Disk, script: seq<ListReply>, task: TaskFn, token: string, total: int,
                        calls: seq<string>, fetched: seq<MediaItem>)
    requires Finite(script) && |calls| < |script|
    requires script[|calls|].Ok? && RunTasks(d, script[|calls|].value.mediaItems, task).err.None?
             ==> script[|calls|].value.nextPageToken == ""
    ensures RunFrom(d, script, task, token, total, calls, fetched).calls == calls + [token]
  {
  }

  /** The run made at least one call past `lo`, and if it completed, every
      item listed from page `lo` on is stored. */
  predicate StoredFrom(r: Run, outputDir: Path, script: seq<ListReply>, lo: nat)
  {
    && lo < |r.calls| <= |script|
    && (r.status.Completed? ==> PagesStored(r.disk.files, outputDir, script, lo, |r.calls|))
  }

  /** A completed run leaves every item it listed stored, provided they are
      all tidy. */
  lemma {:induction false} RunFromStores(d: Disk, script: seq<ListReply>, task: TaskFn, token: string, total: int,
                                         calls: seq<string>, fetched: seq<MediaItem>, outputDir: Path,
                                         get: MediaItem -> Result<Bytes>)
    requires Finite(script) && |calls| < |script|
    requires Performs(task, outputDir, false, get) && ScriptTidy(script, get)
    ensures StoredFrom(RunFrom(d, script, task, token, total, calls, fetched), outputDir, script, |calls|)
    decreases |script| - |calls|, 3
  {
    if script[|calls|].Fail? || RunTasks(d, script[|calls|].value.mediaItems, task).err.Some? {
      RunFromStopped(d, script, task, token, total, calls, fetched);
    } else if script[|calls|].value.nextPageToken == "" {
      RunFromStoresLast(d, script, task, token, total, calls, fetched, outputDir, get);
    } else {
      RunFromStoresMiddle(d, script, task, token, total, calls, fetched, outputDir, get);
    }
  }

  /** The items of a page tidy and stored without error are all stored. */
  lemma {:induction false} PageStores(d: Disk, script: seq<ListReply>, task: TaskFn, lo: nat, outputDir: Path,
                   get: MediaItem -> Result<Bytes>)
    requires lo < |script| && script[lo].Ok?
    requires Performs(task, outputDir, false, get) && ScriptTidy(script, get)
    requires RunTasks(d, script[lo].value.mediaItems, task).err.None?
    ensures AllStored(RunTasks(d, script[lo].value.mediaItems, task).disk.files, outputDir,
                      script[lo].value.mediaItems)
  {
    var items := script[lo].value.mediaItems;
    assert forall i :: 0 <= i < |items| ==> Tidy(items[i], get);
    RunTasksStores(d, items, task, outputDir, get);
  }

  /** The last page: its items are what the completed run stored. */
  lemma {:induction false} RunFromStoresLast(d: Disk, script: seq<ListReply>, task: TaskFn, token: string, total: int,
                          calls: seq<string>, fetched: seq<MediaItem>, outputDir: Path,
                          get: MediaItem -> Result<Bytes>)
    requires Finite(script) && |calls| < |script|
    requires Performs(task, outputDir, false, get) && ScriptTidy(script, get)
    requires script[|calls|].Ok? && script[|calls|].value.nextPageToken == ""
    requires RunTasks(d, script[|calls|].value.mediaItems, task).err.None?
    ensures StoredFrom(RunFrom(d, script, task, token, total, calls, fetched), outputDir, script, |calls|)
  {
    var page := script[|calls|].value;
    var p := RunTasks(d, page.mediaItems, task);
    PageStores(d, script, task, |calls|, outputDir, get);
    var r := RunFrom(d, script, task, token, total, calls, fetched);
    assert r.disk == p.disk && |r.calls| == |calls| + 1;
    assert PagesStored(p.disk.files, outputDir, script, |calls|, |calls| + 1);
  }

  /** A page with more to come: its items stay stored while the rest of the
      run stores the later pages. */
  lemma {:induction false} RunFromStoresMiddle(d: Disk, script: seq<ListReply>, task: TaskFn, token: string,
                                               total: int, calls: seq<string>, fetched: seq<MediaItem>,
                                               outputDir: Path, get: MediaItem -> Result<Bytes>)
    requires Finite(script) && |calls| < |script|
    requires Performs(task, outputDir, false, get) && ScriptTidy(script, get)
    requires script[|calls|].Ok? && script[|calls|].value.nextPageToken != ""
    requires RunTasks(d, script[|calls|].value.mediaItems, task).err.None?
    ensures StoredFrom(RunFrom(d, script, task, token, total, calls, fetched), outputDir, script, |calls|)
    decreases |script| - |calls|, 2
  {
    StoredFromContinues(d, script, task, token, total, calls, fetched, outputDir);
    RunFromStoresRest(d, script, task, token, total, calls, fetched, outputDir, get);
  }

  /** The rest of a run past a page stored without error stores that page's
      items next to the later ones. */
  lemma {:induction false} RunFromStoresRest(d: Disk, script: seq<ListReply>, task: TaskFn, token: string,
                                             total: int, calls: seq<string>, fetched: seq<MediaItem>,
                                             outputDir: Path, get: MediaItem -> Result<Bytes>)
    requires Finite(script) && |calls| + 1 < |script|
    requires Performs(task, outputDir, false, get) && ScriptTidy(script, get)
    requires script[|calls|].Ok? && RunTasks(d, script[|calls|].value.mediaItems, task).err.None?
    ensures var page := script[|calls|].value;
      var p := RunTasks(d, page.mediaItems, task);
      StoredFrom(RunFrom(p.disk, script, task, page.nextPageToken, total + |page.mediaItems|,
                         calls + [token], fetched + p.fetched), outputDir, script, |calls|)
    decreases |script| - |calls|, 1
  {
    var page := script[|calls|].value;
    var p := RunTasks(d, page.mediaItems, task);
    PageStores(d, script, task, |calls|, outputDir, get);
    RunFromStoresNext(p.disk, script, task, page.nextPageToken, total + |page.mediaItems|,
                      |calls|, calls + [token], fetched + p.fetched, outputDir, get);
  }

  /** A run that goes on past its first page stores what the rest of it stores. */
  lemma {:induction false} StoredFromContinues(d: Disk, script: seq<ListReply>, task: TaskFn, token: string,
                                               total: int, calls: seq<string>, fetched: seq<MediaItem>,
                                               outputDir: Path)
    requires Finite(script) && |calls| < |script|
    requires script[|calls|].Ok? && script[|calls|].value.nextPageToken != ""
    requires RunTasks(d, script[|calls|].value.mediaItems, task).err.None?
    ensures |calls| + 1 < |script|
    ensures var page := script[|calls|].value;
      var p := RunTasks(d, page.mediaItems, task);
      StoredFrom(RunFrom(d, script, task, token, total, calls, fetched), outputDir, script, |calls|)
        == StoredFrom(RunFrom(p.disk, script, task, page.nextPageToken, total + |page.mediaItems|,
                              calls + [token], fetched + p.fetched), outputDir, script, |calls|)
  {
    RunFromContinues(d, script, task, token, total, calls, fetched);
  }

  /** The rest of a run that started after page `lo`, whose items are already
      stored: they stay stored, next to whatever the rest stores. */
  lemma {:induction false} RunFromStoresNext(d: Disk, script: seq<ListReply>, task: TaskFn, token: string,
                                             total: int, lo: nat, calls: seq<string>, fetched: seq<MediaItem>,
                                             outputDir: Path, get: MediaItem -> Result<Bytes>)
    requires Finite(script) && |calls| == lo + 1 && |calls| < |script|
    requires Performs(task, outputDir, false, get) && ScriptTidy(script, get)
    requires script[lo].Ok? ==> AllStored(d.files, outputDir, script[lo].value.mediaItems)
    ensures var r := RunFrom(d, script, task, token, total, calls, fetched);
      && lo < |r.calls| <= |script|
      && (r.status.Completed? ==> PagesStored(r.disk.files, outputDir, script, lo, |r.calls|))
    decreases |script| - lo, 0
  {
    var r := RunFrom(d, script, task, token, total, calls, fetched);
    assert Grows(d, r.disk) by {
      RunFromGrows(d, script, task, token, total, calls, fetched, outputDir, false, get);
    }
    RunFromStores(d, script, task, token, total, calls, fetched, outputDir, get);
    PagesStoredStep(d, r.disk, outputDir, script, lo, |calls|, |r.calls|, r.status.Completed?);
  }

  /** A completed run got a page from its first call and ran that page's
      tasks without error. */
  lemma {:induction false} RunFromCompletedPage(d: Disk, script: seq<ListReply>, task: TaskFn, token: string, total: int,
                             calls: seq<string>, fetched: seq<MediaItem>)
    requires Finite(script) && |calls| < |script|
    requires RunFrom(d, script, task, token, total, calls, fetched).status.Completed?
    ensures script[|calls|].Ok? && RunTasks(d, script[|calls|].value.mediaItems, task).err.None?
  {
  }

  /** A second run over a disk holding every item a completed run listed takes
      the same path as that run: the same `List` calls and the same outcome,
      with no download and no file or timestamp changed. */
  lemma {:induction false} RunFromSkips(d1: Disk, d2: Disk, script: seq<ListReply>, task: TaskFn, token: string,
                                        total: int, calls: seq<string>, fetched1: seq<MediaItem>,
                                        fetched2: seq<MediaItem>, outputDir: Path, get: MediaItem -> Result<Bytes>)
    requires Finite(script) && |calls| < |script|
    requires Performs(task, outputDir, false, get) && d2.faults == {}
    requires var r1 := RunFrom(d1, script, task, token, total, calls, fetched1);
      && |r1.calls| <= |script|
      && r1.status.Completed?
      && PagesStored(d2.files, outputDir, script, |calls|, |r1.calls|)
    ensures var r1 := RunFrom(d1, script, task, token, total, calls, fetched1);
      var r2 := RunFrom(d2, script, task, token, total, calls, fetched2);
      && r2.status == r1.status && r2.calls == r1.calls && r2.fetched == fetched2
      && r2.disk.files == d2.files && r2.disk.mtimes == d2.mtimes
    decreases |script| - |calls|, 1
  {
    RunFromCompletedPage(d1, script, task, token, total, calls, fetched1);
    RunFromCalls(d1, script, task, token, total, calls, fetched1);
    var page := script[|calls|].value;
    assert AllStored(d2.files, outputDir, page.mediaItems);
    RunTasksSkips(d2, page.mediaItems, task, outputDir, get);
    if page.nextPageToken == "" {
      RunFromSkipsLast(d1, d2, script, task, token, total, calls, fetched1, fetched2);
    } else {
      RunFromSkipsMiddle(d1, d2, script, task, token, total, calls, fetched1, fetched2, outputDir, get);
    }
  }

  /** The last page, already stored: the second run completes on it with the
      same total, having downloaded and changed nothing. */
  lemma {:induction false} RunFromSkipsLast(d1: Disk, d2: Disk, script: seq<ListReply>, task: TaskFn, token: string,
                         total: int, calls: seq<string>, fetched1: seq<MediaItem>, fetched2: seq<MediaItem>)
    requires Finite(script) && |calls| < |script|
    requires script[|calls|].Ok? && script[|calls|].value.nextPageToken == ""
    requires RunTasks(d1, script[|calls|].value.mediaItems, task).err.None?
    requires var p2 := RunTasks(d2, script[|calls|].value.mediaItems, task);
      && p2.err.None? && p2.fetched == [] && p2.disk.files == d2.files && p2.disk.mtimes == d2.mtimes
    ensures var r1 := RunFrom(d1, script, task, token, total, calls, fetched1);
      var r2 := RunFrom(d2, script, task, token, total, calls, fetched2);
      && r2.status == r1.status && r2.calls == r1.calls && r2.fetched == fetched2
      && r2.disk.files == d2.files && r2.disk.mtimes == d2.mtimes
  {
    var page := script[|calls|].value;
    var p1 := RunTasks(d1, page.mediaItems, task);
    var p2 := RunTasks(d2, page.mediaItems, task);
    RunFromPage(d1, script, task, token, total, calls, fetched1, page, p1);
    RunFromPage(d2, script, task, token, total, calls, fetched2, page, p2);
    assert fetched2 + p2.fetched == fetched2;
  }

  /** A stored page with more to come: both runs go on to the next page with
      the same token and total, and the second still finds the rest stored. */
  lemma {:induction false} RunFromSkipsMiddle(d1: Disk, d2: Disk, script: seq<ListReply>, task: TaskFn,
                                              token: string, total: int, calls: seq<string>,
                                              fetched1: seq<MediaItem>, fetched2: seq<MediaItem>, outputDir: Path,
                                              get: MediaItem -> Result<Bytes>)
    requires Finite(script) && |calls| < |script|
    requires Performs(task, outputDir, false, get)
    requires script[|calls|].Ok? && script[|calls|].value.nextPageToken != ""
    requires RunTasks(d1, script[|calls|].value.mediaItems, task).err.None?
    requires var p2 := RunTasks(d2, script[|calls|].value.mediaItems, task);
      && p2.err.None? && p2.fetched == [] && p2.disk.files == d2.files && p2.disk.mtimes == d2.mtimes
      && p2.disk.faults == {}
    requires var r1 := RunFrom(d1, script, task, token, total, calls, fetched1);
      && |r1.calls| <= |script|
      && r1.status.Completed?
      && PagesStored(d2.files, outputDir, script, |calls|, |r1.calls|)
    ensures var r1 := RunFrom(d1, script, task, token, total, calls, fetched1);
      var r2 := RunFrom(d2, script, task, token, total, calls, fetched2);
      && r2.status == r1.status && r2.calls == r1.calls && r2.fetched == fetched2
      && r2.disk.files == d2.files && r2.disk.mtimes == d2.mtimes
    decreases |script| - |calls|, 0
  {
    var page := script[|calls|].value;
    var p1 := RunTasks(d1, page.mediaItems, task);
    var p2 := RunTasks(d2, page.mediaItems, task);
    var calls' := calls + [token];
    var total' := total + |page.mediaItems|;
    RunFromContinues(d1, script, task, token, total, calls, fetched1);
    RunFromContinues(d2, script, task, token, total, calls, fetched2);
    var r1 := RunFrom(d1, script, task, token, total, calls, fetched1);
    assert PagesStored(p2.disk.files, outputDir, script, |calls'|, |r1.calls|);
    assert fetched2 + p2.fetched == fetched2;
    RunFromSkips(p1.disk, p2.disk, script, task, page.nextPageToken, total', calls',
                 fetched1 + p1.fetched, fetched2, outputDir, get);
  }

  /** Running `Extract` again after a completed run, on a disk without faults
      and with tidy items, repeats the same `List` calls and outcome, downloads
      nothing and changes no file and no timestamp. */
  lemma ExtractTwiceDownloadsNothing(d: Disk, script: seq<ListReply>, task: TaskFn, outputDir: Path,
                                     get: MediaItem -> Result<Bytes>)
    requires Finite(script) && Performs(task, outputDir, false, get)
    requires d.faults == {} && ScriptTidy(script, get)
    requires ExtractSpec(d, script, task).status.Completed?
    ensures var r1 := ExtractSpec(d, script, task);
      var r2 := ExtractSpec(r1.disk, script, task);
      && r2.status == r1.status && r2.calls == r1.calls && r2.fetched == []
      && r2.disk.files == r1.disk.files && r2.disk.mtimes == r1.disk.mtimes
  {
    var r1 := ExtractSpec(d, script, task);
    RunFromGrows(d, script, task, "", 0, [], [], outputDir, false, get);
    RunFromStores(d, script, task, "", 0, [], [], outputDir, get);
    RunFromSkips(d, r1.disk, script, task, "", 0, [], [], [], outputDir, get);
  }
}
