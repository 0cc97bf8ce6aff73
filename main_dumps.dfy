/**
 * The main Wikimedia database dumps family (`modules/dumps.py`): one catalog
 * row per (wiki, dump date), the status tally read from `dumpruninfo.txt`,
 * the work queries, archiving and checking one dump, the claim-run-release
 * dispatcher, the five-step `update` reconciler and the `execute` driver.
 */
module MainDumps {
  import opened DateOrder
  import opened CatalogStore
  import opened SourceInspector

  // ---------------------------------------------------------------------
  // The dumpruninfo.txt status tally
  // ---------------------------------------------------------------------

  /** A job that is still running or queued. */
  predicate IsPending(s: string)
  {
    s == "in-progress" || s == "waiting"
  }

  /** A job that has finished without error. */
  predicate IsFinished(s: string)
  {
    s == "done" || s == "skipped"
  }

  /** A status the tally counts; any other status ends the scan. */
  predicate Counted(s: string)
  {
    IsPending(s) || IsFinished(s)
  }

  /** The position of the first status the tally does not count, or the length when there is none. */
  function FirstHalt(s: seq<string>): (h: nat)
    ensures h <= |s|
  {
    if s == [] then 0
    else if !Counted(s[0]) then 0
    else 1 + FirstHalt(s[1..])
  }

  lemma {:induction false} FirstHaltMeaning(s: seq<string>)
    ensures forall i :: 0 <= i < FirstHalt(s) ==> Counted(s[i])
    ensures FirstHalt(s) < |s| ==> !Counted(s[FirstHalt(s)])
  {
    if s != [] && Counted(s[0]) {
      FirstHaltMeaning(s[1..]);
    }
  }

  /** Some status is pending. */
  function AnyPending(s: seq<string>): bool
  {
    s != [] && (IsPending(s[0]) || AnyPending(s[1..]))
  }

  lemma {:induction false} AnyPendingMeaning(s: seq<string>)
    ensures AnyPending(s) <==> exists i :: 0 <= i < |s| && IsPending(s[i])
  {
    if s != [] {
      AnyPendingMeaning(s[1..]);
      if !IsPending(s[0]) && exists i :: 0 <= i < |s| && IsPending(s[i]) {
        var i :| 0 <= i < |s| && IsPending(s[i]);
        assert s[1..][i - 1] == s[i];
      }
    }
  }

  /**
   * The dump's progress as the status lines give it: the first status that
   * is neither pending nor finished decides ("failed" is an error, anything
   * else unknown); otherwise any pending job means in progress, a non-empty
   * all-finished list means done, and an empty list is unknown.
   */
  function DumpRunStatus(s: seq<string>): Progress
  {
    var h := FirstHalt(s);
    if h < |s| then (if s[h] == "failed" then Error else Unknown)
    else if AnyPending(s) then InProgress
    else if |s| > 0 then Done
    else Unknown
  }

  /** `getDumpProgress` over the status lines of `dumpruninfo.txt`, with its two counters. */
  method GetDumpProgress(statuses: seq<string>) returns (output: Progress)
    ensures output == DumpRunStatus(statuses)
  {
    FirstHaltMeaning(statuses);
    AnyPendingMeaning(statuses);
    var progress := 0;
    var done := 0;
    for i := 0 to |statuses|
      invariant forall j :: 0 <= j < i ==> Counted(statuses[j])
      invariant progress + done == i
      invariant progress > 0 <==> exists j :: 0 <= j < i && IsPending(statuses[j])
    {
      var status := statuses[i];
      if status == "failed" {
        return Error;
      } else if status == "in-progress" || status == "waiting" {
        progress := progress + 1;
      } else if status == "done" || status == "skipped" {
        done := done + 1;
      } else {
        return Unknown;
      }
    }
    if progress > 0 {
      output := InProgress;
    } else if done > 0 {
      output := Done;
    } else {
      output := Unknown;
    }
  }

  /** Each outcome of the tally, stated over the whole status list. */
  lemma RunStatusMeaning(s: seq<string>)
    ensures DumpRunStatus(s) == Done <==> |s| > 0 && forall i :: 0 <= i < |s| ==> IsFinished(s[i])
    ensures DumpRunStatus(s) == InProgress <==>
              (forall i :: 0 <= i < |s| ==> Counted(s[i])) && exists i :: 0 <= i < |s| && IsPending(s[i])
    ensures DumpRunStatus(s) == Error <==>
              exists i :: 0 <= i < |s| && s[i] == "failed" && forall j :: 0 <= j < i ==> Counted(s[j])
  {
    FirstHaltMeaning(s);
    AnyPendingMeaning(s);
    var h := FirstHalt(s);
    if h < |s| {
      if s[h] != "failed" {
        forall i | 0 <= i < |s| && s[i] == "failed"
          ensures exists j :: 0 <= j < i && !Counted(s[j])
        {
          assert h < i;
        }
      }
    } else {
      if |s| > 0 && (forall i :: 0 <= i < |s| ==> IsFinished(s[i])) {
        assert !IsPending(s[0]);
      }
    }
  }

  // ---------------------------------------------------------------------
  // Work queries
  // ---------------------------------------------------------------------

  /** `getItemsLeft`'s conditions: a finished dump that may be archived, or one archived but not checked. */
  function BacklogFilter(job: Job): Filter
    requires job != UpdateJob
  {
    if job == ArchiveJob then Filter(Some(Done), Some(1), Some(0), None)
    else Filter(Some(Done), None, Some(1), Some(0))
  }

  /** `getRandomItemSql`'s conditions: the archive pick is the count's, the check pick has no progress condition. */
  function PickFilter(job: Job): Filter
    requires job != UpdateJob
  {
    if job == ArchiveJob then Filter(Some(Done), Some(1), Some(0), None)
    else Filter(None, None, Some(1), Some(0))
  }

  /** `getItemsLeft`: the number of unclaimed rows left for the job; the update job counts none. */
  function ItemsLeft(rows: map<Key, Row>, job: Job): nat
  {
    if job == UpdateJob then 0 else CountWhere(rows, BacklogFilter(job))
  }

  /** What the archive and check counts count, stated column by column. */
  lemma ItemsLeftMeaning(rows: map<Key, Row>)
    ensures ItemsLeft(rows, ArchiveJob) > 0 <==>
              exists k :: k in rows && rows[k].claimedBy.None? && rows[k].progress == Some(Done)
                          && rows[k].isArchived == 0 && rows[k].canArchive == 1
    ensures ItemsLeft(rows, CheckJob) > 0 <==>
              exists k :: k in rows && rows[k].claimedBy.None? && rows[k].progress == Some(Done)
                          && rows[k].isArchived == 1 && rows[k].isChecked == 0
    ensures ItemsLeft(rows, UpdateJob) == 0
  {
    var a := KeysWhere(rows, BacklogFilter(ArchiveJob));
    var c := KeysWhere(rows, BacklogFilter(CheckJob));
    if k :| k in rows && rows[k].claimedBy.None? && rows[k].progress == Some(Done)
             && rows[k].isArchived == 0 && rows[k].canArchive == 1 {
      assert k in a;
    }
    if k :| k in rows && rows[k].claimedBy.None? && rows[k].progress == Some(Done)
             && rows[k].isArchived == 1 && rows[k].isChecked == 0 {
      assert k in c;
    }
    if a != {} {
      var k :| k in a;
    }
    if c != {} {
      var k :| k in c;
    }
  }

  /**
   * `getRandomItem`: a random unclaimed row for the job, or None for the
   * update job; when the count is positive there is always one.
   */
  method GetRandomItem(rows: map<Key, Row>, job: Job) returns (item: Option<Key>)
    ensures job == UpdateJob ==> item == None
    ensures item.Some? ==> job != UpdateJob && item.value in rows && Eligible(rows[item.value], PickFilter(job))
    ensures ItemsLeft(rows, job) > 0 ==> item.Some?
  {
    if job == UpdateJob {
      return None;
    }
    if ItemsLeft(rows, job) > 0 {
      CountedRowIsPickable(rows, BacklogFilter(job), PickFilter(job));
    }
    item := PickWhere(rows, PickFilter(job));
  }

  /**
   * The check pick reaches rows the check count does not count: an archived,
   * unchecked row whose progress is not "done".
   */
  lemma CheckPickOutrunsCount()
    ensures var rows := map[("enwiki", "20150602") := Row(Some(Error), 0, 1, 0, None, None)];
            ItemsLeft(rows, CheckJob) == 0 && KeysWhere(rows, PickFilter(CheckJob)) != {}
  {
    var rows := map[("enwiki", "20150602") := Row(Some(Error), 0, 1, 0, None, None)];
    assert KeysWhere(rows, BacklogFilter(CheckJob)) == {};
    assert ("enwiki", "20150602") in KeysWhere(rows, PickFilter(CheckJob));
  }

  // ---------------------------------------------------------------------
  // The world outside the catalog
  // ---------------------------------------------------------------------

  /**
   * What the family reads from outside the catalog, keyed by wiki or by
   * (wiki, date): the names linked from a wiki's dump index, the job
   * statuses of a dump's `dumpruninfo.txt`, the files linked from its
   * `index.html`, the listing of its local dump directory (None when the
   * directory is missing), the file list of its Internet Archive item, and
   * whether the n-th upload attempt for it succeeds.
   */
  datatype Origin = Origin(
    isDumpDate: string -> bool,
    listing: string -> seq<string>,
    statuses: Key -> seq<string>,
    files: Key -> seq<string>,
    local: Key -> Option<set<string>>,
    remote: Key -> set<string>,
    accept: Key -> nat -> bool)

  /** The dump's progress as a fresh `getDumpProgress` reports it. */
  function Probe(o: Origin, k: Key): Progress
  {
    DumpRunStatus(o.statuses(k))
  }

  /** The dump's expected files (`getDumpFiles`). */
  function Expected(o: Origin, k: Key): seq<string>
  {
    DumpFiles(o.files(k))
  }

  /** `checkDumpDir` on the dump's local directory. */
  predicate Complete(o: Origin, k: Key)
  {
    DirComplete(o.local(k), Expected(o, k))
  }

  // ---------------------------------------------------------------------
  // Archiving and checking one dump
  // ---------------------------------------------------------------------

  /** The checksum files a dump directory may hold besides the expected ones. */
  const Checksums: seq<string> := ["md5sums.txt", "sha1sums.txt"]

  function ChecksumFiles(k: Key): seq<string>
  {
    [k.0 + "-" + k.1 + "-" + Checksums[0], k.0 + "-" + k.1 + "-" + Checksums[1]]
  }

  /** What `archive` decides before uploading anything. */
  datatype Plan = Refuse | AlreadyUploaded | Send(items: seq<string>)

  function ArchivePlan(o: Origin, k: Key, resume: bool): Plan
  {
    var expected := Expected(o, k);
    if !DirComplete(o.local(k), expected) then Refuse
    else if resume && Missing(expected, o.remote(k)) == [] then AlreadyUploaded
    else
      var base := if resume then Missing(expected, o.remote(k)) else expected;
      Send(base + PresentIn(ChecksumFiles(k), o.local(k).value))
  }

  /**
   * The plan refuses an incomplete directory; a resumed run with nothing
   * missing uploads nothing; otherwise it sends every expected file (only
   * the ones the item lacks when resuming) and every checksum file the
   * directory holds, and nothing else.
   */
  lemma ArchivePlanMeaning(o: Origin, k: Key, resume: bool)
    ensures ArchivePlan(o, k, resume) == Refuse <==> !Complete(o, k)
    ensures ArchivePlan(o, k, resume) == AlreadyUploaded <==>
              Complete(o, k) && resume && AllRemote(Expected(o, k), o.remote(k))
    ensures ArchivePlan(o, k, resume).Send? ==>
              forall f :: f in ArchivePlan(o, k, resume).items <==>
                (f in Expected(o, k) && (resume ==> f !in o.remote(k)))
                || (f in ChecksumFiles(k) && f in o.local(k).value)
  {
  }

  /** Whether `archive` returns True. */
  predicate ArchiveSucceeds(o: Origin, k: Key, resume: bool)
  {
    match ArchivePlan(o, k, resume)
    case Refuse => false
    case AlreadyUploaded => true
    case Send(items) => forall i :: 0 <= i < |items| ==> o.accept(k)(i)
  }

  /**
   * `archive`: refuses an incomplete directory before any upload, selects
   * the files (the missing ones when resuming, returning True with no upload
   * when none is missing), appends the checksum files present locally and
   * runs the upload loop, which stops at the first failure.
   */
  method Archive(o: Origin, k: Key, resume: bool) returns (ok: bool, sent: seq<Upload>)
    ensures ok == ArchiveSucceeds(o, k, resume)
    ensures ArchivePlan(o, k, resume).Send? ==> UploadRun(ArchivePlan(o, k, resume).items, o.accept(k), ok, sent)
    ensures !ArchivePlan(o, k, resume).Send? ==> sent == []
  {
    ghost var plan := ArchivePlan(o, k, resume);
    var allfiles := DumpFiles(o.files(k));
    var complete := CheckDumpDir(o.local(k), allfiles);
    if !complete {
      assert plan == Refuse;
      return false, [];
    }
    var items: seq<string>;
    if resume {
      items := SelectMissing(allfiles, o.remote(k));
      if items == [] {
        assert plan == AlreadyUploaded;
        return true, [];
      }
    } else {
      items := allfiles;
    }
    items := AppendPresent(items, ChecksumFiles(k), o.local(k).value);
    assert plan == Send(items);
    ok, sent := UploadAll(items, o.accept(k));
  }

  /** The checksum loop of `archive`: appends each listed file that exists locally. */
  method AppendPresent(items: seq<string>, names: seq<string>, files: set<string>) returns (r: seq<string>)
    ensures r == items + PresentIn(names, files)
  {
    r := items;
    for j := 0 to |names|
      invariant r == items + PresentIn(names[..j], files)
    {
      assert names[..j + 1][..j] == names[..j];
      if names[j] in files {
        r := r + [names[j]];
      }
    }
    assert names[..|names|] == names;
  }

  /** Whether the job's run on the dump returns True; the update job runs nothing. */
  predicate JobSucceeds(o: Origin, job: Job, k: Key, resume: bool)
  {
    match job
    case ArchiveJob => ArchiveSucceeds(o, k, resume)
    case CheckJob => AllRemote(Expected(o, k), o.remote(k))
    case UpdateJob => false
  }

  /** The job `dispatch` runs on a dump, archive or check, and its outcome. */
  method RunJob(o: Origin, job: Job, k: Key, resume: bool) returns (ok: bool)
    requires job != UpdateJob
    ensures ok == JobSucceeds(o, job, k, resume)
  {
    if job == ArchiveJob {
      var sent;
      ok, sent := Archive(o, k, resume);
    } else {
      ok := Check(DumpFiles(o.files(k)), o.remote(k));
    }
  }

  /**
   * `dispatch`: claims the row unless in debug mode, runs the job, and then
   * either returns the job's outcome (debug mode, no write) or marks the row
   * with it and releases the claim.
   */
  method Dispatch(cat: Catalog<Key>, job: Job, k: Key, o: Origin, resume: bool, debug: bool, host: string)
      returns (status: Option<bool>)
    modifies cat
    ensures debug ==> cat.rows == old(cat.rows)
    ensures status == if debug && job != UpdateJob then Some(JobSucceeds(o, job, k, resume)) else None
    ensures !debug ==> cat.rows == if k in old(cat.rows)
                                   then old(cat.rows)[k := Settle(old(cat.rows)[k], job, JobSucceeds(o, job, k, resume), host)]
                                   else old(cat.rows)
  {
    if !debug {
      cat.ClaimItem(k, host);
    }
    if job == UpdateJob {
      return None;
    }
    var ok := RunJob(o, job, k, resume);
    if debug {
      return Some(ok);
    }
    if job == ArchiveJob {
      if ok {
        cat.MarkArchived(k);
      } else {
        cat.MarkFailedArchive(k);
      }
    } else {
      if ok {
        cat.MarkChecked(k);
      } else {
        cat.MarkFailedCheck(k);
      }
    }
    return None;
  }

  // ---------------------------------------------------------------------
  // The update reconciler
  // ---------------------------------------------------------------------

  const InProgressRows: Filter := Filter(Some(InProgress), None, None, None)
  const NotYetArchivable: Filter := Filter(Some(Done), Some(0), None, None)
  const FailedRows: Filter := Filter(Some(Error), None, None, None)
  const ArchivableRows: Filter := Filter(None, Some(1), None, None)

  /** The five stored-date lists `update` reads for a wiki before its first step. */
  datatype Snapshot = Snapshot(
    stored: set<string>,
    inprogress: set<string>,
    cannotarc: set<string>,
    failed: set<string>,
    canarc: set<string>)

  ghost function Snap(rows: map<Key, Row>, db: string, limit: nat): Snapshot
  {
    Snapshot(
      Newest(DatesOf(rows, db, AnyRow), limit),
      Newest(DatesOf(rows, db, InProgressRows), limit),
      Newest(DatesOf(rows, db, NotYetArchivable), limit),
      Newest(DatesOf(rows, db, FailedRows), limit),
      Newest(DatesOf(rows, db, ArchivableRows), limit))
  }

  /** Every date in a snapshot list is a row of the wiki that matches the list's filter. */
  lemma SnapWithin(rows: map<Key, Row>, db: string, limit: nat, d: string)
    ensures d in Snap(rows, db, limit).stored ==> (db, d) in rows
    ensures d in Snap(rows, db, limit).inprogress ==> (db, d) in rows && rows[(db, d)].progress == Some(InProgress)
    ensures d in Snap(rows, db, limit).cannotarc ==> (db, d) in rows && Matches(rows[(db, d)], NotYetArchivable)
    ensures d in Snap(rows, db, limit).failed ==> (db, d) in rows && rows[(db, d)].progress == Some(Error)
    ensures d in Snap(rows, db, limit).canarc ==> (db, d) in rows && rows[(db, d)].canArchive == 1
  {
    if d in Snap(rows, db, limit).stored { assert d in DatesOf(rows, db, AnyRow); }
    if d in Snap(rows, db, limit).inprogress { assert d in DatesOf(rows, db, InProgressRows); }
    if d in Snap(rows, db, limit).cannotarc { assert d in DatesOf(rows, db, NotYetArchivable); }
    if d in Snap(rows, db, limit).failed { assert d in DatesOf(rows, db, FailedRows); }
    if d in Snap(rows, db, limit).canarc { assert d in DatesOf(rows, db, ArchivableRows); }
  }

  /** Step 1 registers every listed date it finds missing. */
  function AnyDate(d: string): bool
  {
    true
  }

  /** The row step 1 inserts for a date: the freshly probed progress, every flag "0". */
  function NewDumpRow(o: Origin, db: string): string -> Row
  {
    d => NewRow(Some(Probe(o, (db, d))))
  }

  /** Step 2: an in-progress dump whose fresh status is no longer "progress" takes that status. */
  function RecheckProgress(o: Origin, db: string): string -> Option<Edit>
  {
    d => if Probe(o, (db, d)) != InProgress then Some(SetProgress(Probe(o, (db, d)))) else None
  }

  /** Step 3: a finished dump not yet archivable becomes archivable once its directory is complete. */
  function Promote(o: Origin, db: string): string -> Option<Edit>
  {
    d => if Complete(o, (db, d)) then Some(SetCanArchive(1)) else None
  }

  /** Step 4: a failed dump whose fresh status is neither "error" nor "unknown" takes that status. */
  function RecheckFailure(o: Origin, db: string): string -> Option<Edit>
  {
    d => if Probe(o, (db, d)) != Error && Probe(o, (db, d)) != Unknown then Some(SetProgress(Probe(o, (db, d)))) else None
  }

  /** Step 5: an archivable dump whose directory is no longer complete stops being archivable. */
  function Demote(o: Origin, db: string): string -> Option<Edit>
  {
    d => if Complete(o, (db, d)) then None else Some(SetCanArchive(0)) 
  }

  /** Step 2 at one existing row. */
  lemma RecheckProgressAt(rows: map<Key, Row>, db: string, o: Origin, dates: set<string>, d: string)
    requires (db, d) in rows
    ensures (db, d) in Retouch(rows, db, dates, RecheckProgress(o, db))
    ensures Retouch(rows, db, dates, RecheckProgress(o, db))[(db, d)] ==
              if d in dates && Probe(o, (db, d)) != InProgress then rows[(db, d)].(progress := Some(Probe(o, (db, d))))
              else rows[(db, d)]
  {
    RetouchAt(rows, db, dates, RecheckProgress(o, db), d);
  }

  /** Step 3 at one existing row. */
  lemma PromoteAt(rows: map<Key, Row>, db: string, o: Origin, dates: set<string>, d: string)
    requires (db, d) in rows
    ensures (db, d) in Retouch(rows, db, dates, Promote(o, db))
    ensures Retouch(rows, db, dates, Promote(o, db))[(db, d)] ==
              if d in dates && Complete(o, (db, d)) then rows[(db, d)].(canArchive := 1) else rows[(db, d)]
  {
    RetouchAt(rows, db, dates, Promote(o, db), d);
  }

  /** Step 4 at one existing row. */
  lemma RecheckFailureAt(rows: map<Key, Row>, db: string, o: Origin, dates: set<string>, d: string)
    requires (db, d) in rows
    ensures (db, d) in Retouch(rows, db, dates, RecheckFailure(o, db))
    ensures Retouch(rows, db, dates, RecheckFailure(o, db))[(db, d)] ==
              if d in dates && Probe(o, (db, d)) != Error && Probe(o, (db, d)) != Unknown
              then rows[(db, d)].(progress := Some(Probe(o, (db, d))))
              else rows[(db, d)]
  {
    RetouchAt(rows, db, dates, RecheckFailure(o, db), d);
  }

  /** Step 5 at one existing row. */
  lemma DemoteAt(rows: map<Key, Row>, db: string, o: Origin, dates: set<string>, d: string)
    requires (db, d) in rows
    ensures (db, d) in Retouch(rows, db, dates, Demote(o, db))
    ensures Retouch(rows, db, dates, Demote(o, db))[(db, d)] ==
              if d in dates && !Complete(o, (db, d)) then rows[(db, d)].(canArchive := 0) else rows[(db, d)]
  {
    RetouchAt(rows, db, dates, Demote(o, db), d);
  }

  /** One wiki's pass of `update`: the five steps, each over a list read before the first. */
  ghost function ReconcileWiki(rows: map<Key, Row>, db: string, o: Origin, limit: nat): map<Key, Row>
  {
    var s := Snap(rows, db, limit);
    var r1 := Register(rows, db, AllDumps(o.listing(db), o.isDumpDate), s.stored, AnyDate, NewDumpRow(o, db));
    var r2 := Retouch(r1, db, s.inprogress, RecheckProgress(o, db));
    var r3 := Retouch(r2, db, s.cannotarc, Promote(o, db));
    var r4 := Retouch(r3, db, s.failed, RecheckFailure(o, db));
    Retouch(r4, db, s.canarc, Demote(o, db))
  }

  /** `update`: one pass per wiki, in list order. */
  ghost function ReconcileAll(rows: map<Key, Row>, wikis: seq<string>, o: Origin, limit: nat): map<Key, Row>
    decreases |wikis|
  {
    if wikis == [] then rows
    else ReconcileWiki(ReconcileAll(rows, wikis[..|wikis| - 1], o, limit), wikis[|wikis| - 1], o, limit)
  }

  /** `addNewItem`: a new row with the probed progress and every flag "0"; an existing key makes it fail. */
  method AddNewItem(cat: Catalog<Key>, k: Key, progress: Progress) returns (ok: bool)
    modifies cat
    ensures ok <==> k !in old(cat.rows)
    ensures cat.rows == if ok then old(cat.rows)[k := NewRow(Some(progress))] else old(cat.rows)
  {
    ok := cat.Insert(k, NewRow(Some(progress)));
  }

  /** Step 1 of `update`: every listed dump that is not in the stored list is probed and added. */
  method RegisterNewDumps(cat: Catalog<Key>, db: string, o: Origin, dumps: seq<string>, stored: seq<string>)
    modifies cat
    ensures cat.rows == Register(old(cat.rows), db, dumps, Elems(stored), AnyDate, NewDumpRow(o, db))
  {
    ghost var rows0 := cat.rows;
    for i := 0 to |dumps|
      invariant cat.rows == RegisterEach(rows0, db, dumps[..i], Elems(stored), AnyDate, NewDumpRow(o, db))
    {
      var dump := dumps[i];
      assert dumps[..i + 1][..i] == dumps[..i];
      if dump !in stored {
        var progress := GetDumpProgress(o.statuses((db, dump)));
        assert NewDumpRow(o, db)(dump) == NewRow(Some(progress));
        var _ := AddNewItem(cat, (db, dump), progress);
      }
    }
    assert dumps[..|dumps|] == dumps;
    RegisterEachIsRegister(rows0, db, dumps, Elems(stored), AnyDate, NewDumpRow(o, db));
  }

  /** Step 2 of `update`: re-probes each in-progress dump and records a changed status. */
  method RecheckInProgress(cat: Catalog<Key>, db: string, o: Origin, inprogress: seq<string>)
    modifies cat
    ensures cat.rows == Retouch(old(cat.rows), db, Elems(inprogress), RecheckProgress(o, db))
  {
    ghost var rows0 := cat.rows;
    for i := 0 to |inprogress|
      invariant cat.rows == RetouchEach(rows0, db, inprogress[..i], RecheckProgress(o, db))
    {
      assert inprogress[..i + 1][..i] == inprogress[..i];
      RecheckOneInProgress(cat, db, o, inprogress[i]);
    }
    assert inprogress[..|inprogress|] == inprogress;
    RetouchEachIsRetouch(rows0, db, inprogress, RecheckProgress(o, db));
  }

  /** One round of step 2. */
  method RecheckOneInProgress(cat: Catalog<Key>, db: string, o: Origin, dump: string)
    modifies cat
    ensures cat.rows == Touch(old(cat.rows), (db, dump), RecheckProgress(o, db)(dump))
  {
    var progress := GetDumpProgress(o.statuses((db, dump)));
    if progress != InProgress {
      cat.UpdateProgress((db, dump), progress);
    }
  }

  /** Step 3 of `update`: each finished, not yet archivable dump with a complete directory becomes archivable. */
  method PromoteComplete(cat: Catalog<Key>, db: string, o: Origin, cannotarc: seq<string>)
    modifies cat
    ensures cat.rows == Retouch(old(cat.rows), db, Elems(cannotarc), Promote(o, db))
  {
    ghost var rows0 := cat.rows;
    for i := 0 to |cannotarc|
      invariant cat.rows == RetouchEach(rows0, db, cannotarc[..i], Promote(o, db))
    {
      assert cannotarc[..i + 1][..i] == cannotarc[..i];
      var dump := cannotarc[i];
      var complete := CheckDumpDir(o.local((db, dump)), DumpFiles(o.files((db, dump))));
      if complete {
        cat.UpdateCanArchive((db, dump), 1);
      }
    }
    assert cannotarc[..|cannotarc|] == cannotarc;
    RetouchEachIsRetouch(rows0, db, cannotarc, Promote(o, db));
  }

  /** Step 4 of `update`: re-probes each failed dump and records a status other than "error" or "unknown". */
  method RecheckFailed(cat: Catalog<Key>, db: string, o: Origin, failed: seq<string>)
    modifies cat
    ensures cat.rows == Retouch(old(cat.rows), db, Elems(failed), RecheckFailure(o, db))
  {
    ghost var rows0 := cat.rows;
    for i := 0 to |failed|
      invariant cat.rows == RetouchEach(rows0, db, failed[..i], RecheckFailure(o, db))
    {
      assert failed[..i + 1][..i] == failed[..i];
      RecheckOneFailed(cat, db, o, failed[i]);
    }
    assert failed[..|failed|] == failed;
    RetouchEachIsRetouch(rows0, db, failed, RecheckFailure(o, db));
  }

  /** One round of step 4. */
  method RecheckOneFailed(cat: Catalog<Key>, db: string, o: Origin, dump: string)
    modifies cat
    ensures cat.rows == Touch(old(cat.rows), (db, dump), RecheckFailure(o, db)(dump))
  {
    var progress := GetDumpProgress(o.statuses((db, dump)));
    if progress != Error && progress != Unknown {
      cat.UpdateProgress((db, dump), progress);
    }
  }

  /** Step 5 of `update`: each archivable dump whose directory is incomplete stops being archivable. */
  method DemoteIncomplete(cat: Catalog<Key>, db: string, o: Origin, canarc: seq<string>)
    modifies cat
    ensures cat.rows == Retouch(old(cat.rows), db, Elems(canarc), Demote(o, db))
  {
    ghost var rows0 := cat.rows;
    for i := 0 to |canarc|
      invariant cat.rows == RetouchEach(rows0, db, canarc[..i], Demote(o, db))
    {
      assert canarc[..i + 1][..i] == canarc[..i];
      var dump := canarc[i];
      var complete := CheckDumpDir(o.local((db, dump)), DumpFiles(o.files((db, dump))));
      if !complete {
        cat.UpdateCanArchive((db, dump), 0);
      }
    }
    assert canarc[..|canarc|] == canarc;
    RetouchEachIsRetouch(rows0, db, canarc, Demote(o, db));
  }

  /** One wiki's pass of `update`: reads the five lists, then runs the five steps. */
  method UpdateWiki(cat: Catalog<Key>, db: string, o: Origin, limit: nat)
    modifies cat
    ensures cat.rows == ReconcileWiki(old(cat.rows), db, o, limit)
  {
    var dumps := GetAllDumps(o.listing(db), o.isDumpDate);
    var stored := GetStoredDumps(cat, db, AnyRow, limit);
    var inprogress := GetStoredDumps(cat, db, InProgressRows, limit);
    var cannotarc := GetStoredDumps(cat, db, NotYetArchivable, limit);
    var failed := GetStoredDumps(cat, db, FailedRows, limit);
    var canarc := GetStoredDumps(cat, db, ArchivableRows, limit);
    RegisterNewDumps(cat, db, o, dumps, stored);
    RecheckInProgress(cat, db, o, inprogress);
    PromoteComplete(cat, db, o, cannotarc);
    RecheckFailed(cat, db, o, failed);
    DemoteIncomplete(cat, db, o, canarc);
  }

  /** `update`: one pass per public wiki, in list order. */
  method Update(cat: Catalog<Key>, wikis: seq<string>, o: Origin, limit: nat) returns (ok: bool)
    modifies cat
    ensures ok
    ensures cat.rows == ReconcileAll(old(cat.rows), wikis, o, limit)
  {
    ghost var rows0 := cat.rows;
    for i := 0 to |wikis|
      invariant cat.rows == ReconcileAll(rows0, wikis[..i], o, limit)
    {
      assert wikis[..i + 1][..i] == wikis[..i];
      UpdateWiki(cat, wikis[i], o, limit);
    }
    assert wikis[..|wikis|] == wikis;
    return true;
  }

  // ---------------------------------------------------------------------
  // What one pass of `update` does to a wiki's rows
  // ---------------------------------------------------------------------

  /**
   * A pass over wiki `db` never deletes a row and never touches another
   * wiki's rows; on the rows it already had it writes only `progress` and
   * `can_archive`, so the archive and check flags, the claim and the
   * comments survive it; every row it adds is a listed dump of `db` with
   * the probed progress and every flag "0".
   */
  lemma ReconcileWikiFrame(rows: map<Key, Row>, db: string, o: Origin, limit: nat)
    ensures rows.Keys <= ReconcileWiki(rows, db, o, limit).Keys
    ensures forall k :: k in rows ==>
              && ReconcileWiki(rows, db, o, limit)[k].isArchived == rows[k].isArchived
              && ReconcileWiki(rows, db, o, limit)[k].isChecked == rows[k].isChecked
              && ReconcileWiki(rows, db, o, limit)[k].claimedBy == rows[k].claimedBy
              && ReconcileWiki(rows, db, o, limit)[k].comments == rows[k].comments
    ensures forall k :: k in ReconcileWiki(rows, db, o, limit) && k !in rows ==>
              && k.0 == db && k.1 in AllDumps(o.listing(db), o.isDumpDate)
              && ReconcileWiki(rows, db, o, limit)[k] == NewRow(Some(Probe(o, k)))
    ensures forall k: Key :: k.0 != db ==>
              && (k in ReconcileWiki(rows, db, o, limit) <==> k in rows)
              && (k in rows ==> ReconcileWiki(rows, db, o, limit)[k] == rows[k])
  {
    var s := Snap(rows, db, limit);
    var r1 := Register(rows, db, AllDumps(o.listing(db), o.isDumpDate), s.stored, AnyDate, NewDumpRow(o, db));
    var r2 := Retouch(r1, db, s.inprogress, RecheckProgress(o, db));
    var r3 := Retouch(r2, db, s.cannotarc, Promote(o, db));
    var r4 := Retouch(r3, db, s.failed, RecheckFailure(o, db));
    var r5 := Retouch(r4, db, s.canarc, Demote(o, db));
    assert r5 == ReconcileWiki(rows, db, o, limit);
    RegisterFrame(rows, db, AllDumps(o.listing(db), o.isDumpDate), s.stored, AnyDate, NewDumpRow(o, db));
    RetouchFrame(r1, db, s.inprogress, RecheckProgress(o, db));
    RetouchFrame(r2, db, s.cannotarc, Promote(o, db));
    RetouchFrame(r3, db, s.failed, RecheckFailure(o, db));
    RetouchFrame(r4, db, s.canarc, Demote(o, db));
    forall k | k in r5 && k !in rows
      ensures r5[k] == NewRow(Some(Probe(o, k)))
    {
      SnapWithin(rows, db, limit, k.1);
    }
  }

  /** After a pass over `db`, every dump date its index lists has a row. */
  lemma ReconcileRegistersListing(rows: map<Key, Row>, db: string, o: Origin, limit: nat, d: string)
    requires d in o.listing(db) && o.isDumpDate(d)
    ensures (db, d) in ReconcileWiki(rows, db, o, limit)
  {
    var s := Snap(rows, db, limit);
    var dumps := AllDumps(o.listing(db), o.isDumpDate);
    var r1 := Register(rows, db, dumps, s.stored, AnyDate, NewDumpRow(o, db));
    if d in s.stored {
      assert (db, d) in rows;
    } else {
      assert d in dumps;
      assert (db, d) in r1;
    }
    ReconcileWikiFrame(rows, db, o, limit);
  }

  /**
   * Steps 3 and 5 work from lists read before step 1, so a dump the pass
   * registers is never made archivable in that pass, even when it is
   * already finished and its directory complete: it waits for the next one.
   */
  lemma NewDumpWaitsOnePass(rows: map<Key, Row>, db: string, o: Origin, limit: nat, d: string)
    requires d in o.listing(db) && o.isDumpDate(d) && (db, d) !in rows
    ensures (db, d) in ReconcileWiki(rows, db, o, limit)
    ensures ReconcileWiki(rows, db, o, limit)[(db, d)] == NewRow(Some(Probe(o, (db, d))))
    ensures ReconcileWiki(rows, db, o, limit)[(db, d)].canArchive == 0
  {
    ReconcileRegistersListing(rows, db, o, limit, d);
    ReconcileWikiFrame(rows, db, o, limit);
  }

  /**
   * What steps 2 to 5 do to one existing row of the wiki, given the lists
   * read before step 1: each step writes the row only when its date is in
   * that step's list.
   */
  function PassRow(r: Row, d: string, s: Snapshot, probe: Progress, complete: bool): Row
  {
    var r2 := if d in s.inprogress && probe != InProgress then r.(progress := Some(probe)) else r;
    var r3 := if d in s.cannotarc && complete then r2.(canArchive := 1) else r2;
    var r4 := if d in s.failed && probe != Error && probe != Unknown then r3.(progress := Some(probe)) else r3;
    if d in s.canarc && !complete then r4.(canArchive := 0) else r4
  }

  /** Steps 2 and 4 leave a row's status as the probe reports it, except that a failed row keeps "error" over "unknown". */
  lemma PassRowProgress(r: Row, d: string, s: Snapshot, probe: Progress, complete: bool)
    requires r.progress == Some(InProgress) ==> d in s.inprogress && d !in s.failed
    requires r.progress == Some(Error) ==> d in s.failed && d !in s.inprogress
    ensures r.progress == Some(InProgress) ==> PassRow(r, d, s, probe, complete).progress == Some(probe)
    ensures r.progress == Some(Error) ==>
              PassRow(r, d, s, probe, complete).progress == if probe in {Error, Unknown} then Some(Error) else Some(probe)
  {
  }

  lemma PassChain(r1: map<Key, Row>, r2: map<Key, Row>, r3: map<Key, Row>, r4: map<Key, Row>, r5: map<Key, Row>,
                  db: string, o: Origin, s: Snapshot, d: string)
    requires (db, d) in r1
    requires r2 == Retouch(r1, db, s.inprogress, RecheckProgress(o, db))
    requires r3 == Retouch(r2, db, s.cannotarc, Promote(o, db))
    requires r4 == Retouch(r3, db, s.failed, RecheckFailure(o, db))
    requires r5 == Retouch(r4, db, s.canarc, Demote(o, db))
    ensures (db, d) in r5 && r5[(db, d)] == PassRow(r1[(db, d)], d, s, Probe(o, (db, d)), Complete(o, (db, d)))
  {
    RecheckProgressAt(r1, db, o, s.inprogress, d);
    PromoteAt(r2, db, o, s.cannotarc, d);
    RecheckFailureAt(r3, db, o, s.failed, d);
    DemoteAt(r4, db, o, s.canarc, d);
  }

  /** A pass over `db` leaves each existing row of `db` as `PassRow` says. */
  lemma ReconcileWikiAt(rows: map<Key, Row>, db: string, o: Origin, limit: nat, d: string)
    requires (db, d) in rows
    ensures (db, d) in ReconcileWiki(rows, db, o, limit)
    ensures ReconcileWiki(rows, db, o, limit)[(db, d)] ==
              PassRow(rows[(db, d)], d, Snap(rows, db, limit), Probe(o, (db, d)), Complete(o, (db, d)))
  {
    var s := Snap(rows, db, limit);
    var r1 := Register(rows, db, AllDumps(o.listing(db), o.isDumpDate), s.stored, AnyDate, NewDumpRow(o, db));
    var r2 := Retouch(r1, db, s.inprogress, RecheckProgress(o, db));
    var r3 := Retouch(r2, db, s.cannotarc, Promote(o, db));
    var r4 := Retouch(r3, db, s.failed, RecheckFailure(o, db));
    var r5 := Retouch(r4, db, s.canarc, Demote(o, db));
    assert r5 == ReconcileWiki(rows, db, o, limit);
    RegisterFrame(rows, db, AllDumps(o.listing(db), o.isDumpDate), s.stored, AnyDate, NewDumpRow(o, db));
    PassChain(r1, r2, r3, r4, r5, db, o, s, d);
  }

  /**
   * A finished, not yet archivable dump within the newest `limit` such
   * dumps leaves the pass archivable exactly when its directory is complete.
   */
  lemma ReconcilePromotes(rows: map<Key, Row>, db: string, o: Origin, limit: nat, d: string)
    requires (db, d) in rows && Matches(rows[(db, d)], NotYetArchivable)
    requires d in Newest(DatesOf(rows, db, NotYetArchivable), limit)
    ensures ReconcileWiki(rows, db, o, limit)[(db, d)].canArchive == if Complete(o, (db, d)) then 1 else 0
  {
    ReconcileWikiAt(rows, db, o, limit, d);
    SnapWithin(rows, db, limit, d);
  }

  /**
   * An archivable dump within the newest `limit` such dumps loses
   * `can_archive` exactly when its directory is no longer complete, whether
   * or not it has been archived already.
   */
  lemma ReconcileDemotes(rows: map<Key, Row>, db: string, o: Origin, limit: nat, d: string)
    requires (db, d) in rows && rows[(db, d)].canArchive == 1
    requires d in Newest(DatesOf(rows, db, ArchivableRows), limit)
    ensures ReconcileWiki(rows, db, o, limit)[(db, d)].canArchive == if Complete(o, (db, d)) then 1 else 0
    ensures ReconcileWiki(rows, db, o, limit)[(db, d)].isArchived == rows[(db, d)].isArchived
  {
    ReconcileWikiAt(rows, db, o, limit, d);
    SnapWithin(rows, db, limit, d);
  }

  /**
   * A dump in progress within the newest `limit` such dumps leaves the pass
   * with its freshly probed status; a failed one takes its probed status
   * unless that is "error" or "unknown".
   */
  lemma ReconcileRechecks(rows: map<Key, Row>, db: string, o: Origin, limit: nat, d: string)
    requires (db, d) in rows
    requires rows[(db, d)].progress == Some(InProgress) ==> d in Newest(DatesOf(rows, db, InProgressRows), limit)
    requires rows[(db, d)].progress == Some(Error) ==> d in Newest(DatesOf(rows, db, FailedRows), limit)
    ensures rows[(db, d)].progress == Some(InProgress) ==>
              ReconcileWiki(rows, db, o, limit)[(db, d)].progress == Some(Probe(o, (db, d)))
    ensures rows[(db, d)].progress == Some(Error) ==>
              ReconcileWiki(rows, db, o, limit)[(db, d)].progress ==
                if Probe(o, (db, d)) in {Error, Unknown} then Some(Error) else Some(Probe(o, (db, d)))
  {
    ReconcileWikiAt(rows, db, o, limit, d);
    SnapWithin(rows, db, limit, d);
    PassRowProgress(rows[(db, d)], d, Snap(rows, db, limit), Probe(o, (db, d)), Complete(o, (db, d)));
  }

  /** `update` leaves the rows of wikis it does not visit as they were. */
  lemma {:induction false} OtherWikisUntouched(rows: map<Key, Row>, wikis: seq<string>, o: Origin, limit: nat, k: Key)
    requires k.0 !in wikis
    ensures k in ReconcileAll(rows, wikis, o, limit) <==> k in rows
    ensures k in rows ==> ReconcileAll(rows, wikis, o, limit)[k] == rows[k]
    decreases |wikis|
  {
    if wikis != [] {
      var n := |wikis| - 1;
      assert k.0 !in wikis[..n] && k.0 != wikis[n] by {
        assert wikis == wikis[..n] + [wikis[n]];
      }
      OtherWikisUntouched(rows, wikis[..n], o, limit, k);
      ReconcileWikiFrame(ReconcileAll(rows, wikis[..n], o, limit), wikis[n], o, limit);
    }
  }

  // ---------------------------------------------------------------------
  // The entry point
  // ---------------------------------------------------------------------

  /** The command-line arguments `execute` reads: the job, the wiki, the date and `--dumps-resume`. */
  datatype Args = Args(job: Job, wiki: Option<string>, date: Option<string>, resume: bool)

  /** How `execute` ends: with its return value, or never (the debug-mode work loop). */
  datatype Ending = Returned(ok: bool) | RunsForever

  /** A wiki without a date or a date without a wiki: `execute` reports an error. */
  predicate Refused(args: Option<Args>)
  {
    args.Some? && args.value.job != UpdateJob && (args.value.wiki.None? != args.value.date.None?)
  }

  /** No arguments (`--auto`), or a job with neither wiki nor date: `execute` works through the backlog. */
  predicate Continuous(args: Option<Args>)
  {
    args.None? || (args.value.job != UpdateJob && args.value.wiki.None? && args.value.date.None?)
  }

  /** The job of a continuous run: archive when there are no arguments. */
  function ContinuousJob(args: Option<Args>): Job
  {
    if args.None? then ArchiveJob else args.value.job
  }

  /**
   * The rows a continuous run may have written: each one it changed was
   * selectable by the job's pick when the run began and has been settled
   * with the job's outcome.
   */
  ghost predicate SettledFrom(rows0: map<Key, Row>, rows: map<Key, Row>, job: Job, o: Origin, host: string)
    requires job != UpdateJob
  {
    && rows.Keys == rows0.Keys
    && forall k :: k in rows0 ==>
         || rows[k] == rows0[k]
         || (Eligible(rows0[k], PickFilter(job)) && rows[k] == Settle(rows0[k], job, JobSucceeds(o, job, k, false), host))
  }

  /**
   * `execute`: the update job runs `update`; a wiki without a date (or the
   * reverse) is refused; a wiki and a date dispatch that one dump; otherwise
   * the job (archive when there are no arguments) is dispatched on picked
   * rows while the count is positive. Outside debug mode each dispatch
   * settles its row, so the loop ends with nothing left to count; in debug
   * mode nothing is written, so a positive count never drops.
   */
  method Execute(cat: Catalog<Key>, args: Option<Args>, o: Origin, debug: bool, host: string, wikis: seq<string>, limit: nat)
      returns (ending: Ending)
    modifies cat
    ensures args.Some? && args.value.job == UpdateJob ==>
              ending == Returned(true) && cat.rows == ReconcileAll(old(cat.rows), wikis, o, limit)
    ensures Refused(args) ==> ending == Returned(false) && cat.rows == old(cat.rows)
    ensures args.Some? && args.value.job != UpdateJob && args.value.wiki.Some? && args.value.date.Some? ==>
              var k := (args.value.wiki.value, args.value.date.value);
              && ending == Returned(true)
              && cat.rows == if debug || k !in old(cat.rows) then old(cat.rows)
                             else old(cat.rows)[k := Settle(old(cat.rows)[k], args.value.job,
                                                            JobSucceeds(o, args.value.job, k, args.value.resume), host)]
    ensures Continuous(args) && !debug ==>
              && ending == Returned(true)
              && ItemsLeft(cat.rows, ContinuousJob(args)) == 0
              && SettledFrom(old(cat.rows), cat.rows, ContinuousJob(args), o, host)
    ensures Continuous(args) && debug ==>
              && cat.rows == old(cat.rows)
              && ending == if ItemsLeft(old(cat.rows), ContinuousJob(args)) > 0 then RunsForever else Returned(true)
  {
    if args.Some? && args.value.job == UpdateJob {
      var ok := Update(cat, wikis, o, limit);
      return Returned(ok);
    }
    if Refused(args) {
      return Returned(false);
    }
    if !Continuous(args) {
      var k := (args.value.wiki.value, args.value.date.value);
      var status := Dispatch(cat, args.value.job, k, o, args.value.resume, debug, host);
      return Returned(true);
    }
    var job := ContinuousJob(args);
    if debug {
      if ItemsLeft(cat.rows, job) > 0 {
        var item := GetRandomItem(cat.rows, job);
        var status := Dispatch(cat, job, item.value, o, false, debug, host);
        // Nothing was written, so the loop's condition holds again, forever.
        return RunsForever;
      }
      return Returned(true);
    }
    WorkThrough(cat, job, o, host);
    return Returned(true);
  }

  /** The continuous loop outside debug mode: dispatch picked rows until the count is zero. */
  method WorkThrough(cat: Catalog<Key>, job: Job, o: Origin, host: string)
    requires job != UpdateJob
    modifies cat
    ensures ItemsLeft(cat.rows, job) == 0
    ensures SettledFrom(old(cat.rows), cat.rows, job, o, host)
  {
    ghost var rows0 := cat.rows;
    while ItemsLeft(cat.rows, job) > 0
      invariant SettledFrom(rows0, cat.rows, job, o, host)
      decreases CountWhere(cat.rows, PickFilter(job))
    {
      var item := GetRandomItem(cat.rows, job);
      var k := item.value;
      ghost var before := cat.rows;
      ghost var settled := Settle(before[k], job, JobSucceeds(o, job, k, false), host);
      SettleLeavesQueue(before[k], job, JobSucceeds(o, job, k, false), host, PickFilter(job));
      assert before[k] == rows0[k];
      var status := Dispatch(cat, job, k, o, false, false, host);
      LeavingShrinksCount(before, k, settled, PickFilter(job));
    }
  }
}
