/**
 * The media-file visit statistics family (`modules/mediacounts.py`): one
 * catalog row per dump date (no wiki), the work queries, the debug-aware
 * claim, the archive upload loop, the check and `dispatch`, both as written
 * (`getFiles` raises, so archive and check never return) and with a
 * corrected `getFiles`, and the daily `update`, both as written (it calls an
 * `addNewItem` the class never defines) and as evidently intended.
 */
module Mediacounts {
  import opened DateOrder
  import opened CatalogStore
  import opened SourceInspector

  // ---------------------------------------------------------------------
  // Queries
  // ---------------------------------------------------------------------

  /**
   * The column conditions of the archive and check queries: archivable and
   * not archived, or archived and not checked. There is no `progress` column.
   */
  function WorkFilter(job: Job): Filter
    requires job != UpdateJob
  {
    if job == ArchiveJob then Filter(None, Some(1), Some(0), None)
    else Filter(None, None, Some(1), Some(0))
  }

  /** `getItemsLeft`: the unclaimed rows left for the job; any other job counts none. */
  function ItemsLeft(rows: map<string, Row>, job: Job): nat
  {
    if job == UpdateJob then 0 else CountWhere(rows, WorkFilter(job))
  }

  /** What the counts count, column by column. */
  lemma ItemsLeftMeaning(rows: map<string, Row>)
    ensures ItemsLeft(rows, ArchiveJob) > 0 <==>
              exists d :: d in rows && rows[d].claimedBy.None? && rows[d].isArchived == 0 && rows[d].canArchive == 1
    ensures ItemsLeft(rows, CheckJob) > 0 <==>
              exists d :: d in rows && rows[d].claimedBy.None? && rows[d].isArchived == 1 && rows[d].isChecked == 0
    ensures ItemsLeft(rows, UpdateJob) == 0
  {
    var a := KeysWhere(rows, WorkFilter(ArchiveJob));
    var c := KeysWhere(rows, WorkFilter(CheckJob));
    if d :| d in rows && rows[d].claimedBy.None? && rows[d].isArchived == 0 && rows[d].canArchive == 1 {
      assert d in a;
    }
    if d :| d in rows && rows[d].claimedBy.None? && rows[d].isArchived == 1 && rows[d].isChecked == 0 {
      assert d in c;
    }
    if a != {} {
      var d :| d in a;
    }
    if c != {} {
      var d :| d in c;
    }
  }

  /**
   * `getRandomItemSql`: the date of an unclaimed row the job may take
   * (archived ones for the check job), or None when the query returns nothing.
   */
  method GetRandomItemSql(rows: map<string, Row>, archived: bool) returns (item: Option<string>)
    ensures item.Some? ==> item.value in rows && Eligible(rows[item.value], WorkFilter(if archived then CheckJob else ArchiveJob))
    ensures item.None? <==> ItemsLeft(rows, if archived then CheckJob else ArchiveJob) == 0
  {
    item := PickWhere(rows, WorkFilter(if archived then CheckJob else ArchiveJob));
  }

  /** `getRandomItem`: the archive and check jobs query; any other job gets None. */
  method GetRandomItem(rows: map<string, Row>, job: Job) returns (item: Option<string>)
    ensures job == UpdateJob ==> item == None
    ensures item.Some? ==> job != UpdateJob && item.value in rows && Eligible(rows[item.value], WorkFilter(job))
    ensures job != UpdateJob ==> (item.None? <==> ItemsLeft(rows, job) == 0)
  {
    if job == ArchiveJob {
      item := GetRandomItemSql(rows, false);
    } else if job == CheckJob {
      item := GetRandomItemSql(rows, true);
    } else {
      item := None;
    }
  }

  /** The dates stored in the table whose `can_archive` is `c` (None: "all"). */
  function DatesWhere(rows: map<string, Row>, c: Option<Flag>): set<string>
  {
    set d | d in rows && (c.None? || rows[d].canArchive == c.value)
  }

  /** `getDumpDates`: the 30 newest stored dates with the given `can_archive`, newest first. */
  method GetDumpDates(cat: Catalog<string>, c: Option<Flag>) returns (dumps: seq<string>)
    ensures forall i, j :: 0 <= i < j < |dumps| ==> Before(dumps[j], dumps[i])
    ensures forall d :: d in dumps <==> d in Newest(DatesWhere(cat.rows, c), 30)
    ensures forall d :: d in dumps ==> d in cat.rows
  {
    dumps := NewestFirst(DatesWhere(cat.rows, c), 30);
  }

  // ---------------------------------------------------------------------
  // Claim, archive, check and dispatch
  // ---------------------------------------------------------------------

  /**
   * `claimItem`: in debug mode it reports success without writing; otherwise
   * it writes the hostname into the row's `claimed_by`. The store is taken
   * to report success for the statement.
   */
  method ClaimItem(cat: Catalog<string>, d: string, debug: bool, host: string) returns (ok: bool)
    modifies cat
    ensures ok
    ensures debug ==> cat.rows == old(cat.rows)
    ensures !debug && d in old(cat.rows) ==> cat.rows == old(cat.rows)[d := old(cat.rows)[d].(claimedBy := Some(host))]
    ensures !debug && d !in old(cat.rows) ==> cat.rows == old(cat.rows)
  {
    if debug {
      return true;
    }
    cat.ClaimItem(d, host);
    return true;
  }

  /**
   * What the outside world shows for one dump date: the date in the archive
   * form `getDateFromWiki` gives, the listing of a directory when
   * `checkDumpDir` reads it (None when it does not exist), whether the
   * `n`-th upload request of the date's item succeeds, and the file list of
   * the Internet Archive item.
   */
  datatype Origin = Origin(
    arcdate: string -> string,
    listing: string -> Option<set<string>>,
    accept: string -> nat -> bool,
    remote: string -> set<string>)

  /**
   * `getFiles` as evidently intended: the full table and the top-1000 table
   * of the date `a` (in archive form). As written the constructor's two
   * templates lack a comma between them, so Python joins them into one
   * string, and `getFiles` applies `%` to the list, which raises TypeError
   * whatever the date.
   */
  function GetFiles(a: string): (r: seq<string>)
    ensures |r| == 2 && r[0] != r[1]
  {
    ["mediacounts." + a + ".v00.tsv.bz2", "mediacounts.top1000." + a + ".v00.csv.zip"]
  }

  /** Different dates have different files: the date can be read back from the first name. */
  lemma GetFilesInjective(a: string, b: string)
    requires GetFiles(a) == GetFiles(b)
    ensures a == b
  {
    var n := GetFiles(a)[0];
    assert |a| == |b|;
    assert a == n[12..12 + |a|];
    assert b == n[12..12 + |b|];
  }

  /** The files of the date `d`, as the corrected `getFiles` names them. */
  function Expected(o: Origin, d: string): seq<string>
  {
    GetFiles(o.arcdate(d))
  }

  /** The directory `archive` works in: the temporary directory it downloads into, or the given path. */
  function WorkDir(path: Option<string>, tempdir: string): string
  {
    if path.None? then tempdir else path.value
  }

  /** `archive` succeeds iff the directory holds every expected file and every upload succeeds. */
  predicate ArchiveSucceeds(o: Origin, d: string, path: Option<string>, tempdir: string)
  {
    && DirComplete(o.listing(WorkDir(path, tempdir)), Expected(o, d))
    && forall i :: 0 <= i < |Expected(o, d)| ==> o.accept(d)(i)
  }

  /**
   * `archive` with the corrected `getFiles` (as written it raises at that
   * call): returns False for an incomplete directory before uploading
   * anything, otherwise uploads the expected files in order (the first with
   * the item metadata) and stops at the first failure; the downloaded files
   * are removed only after a complete upload that used the temporary directory.
   */
  method Archive(o: Origin, d: string, path: Option<string>, tempdir: string)
      returns (ok: bool, sent: seq<Upload>, removed: bool)
    ensures ok == ArchiveSucceeds(o, d, path, tempdir)
    ensures !DirComplete(o.listing(WorkDir(path, tempdir)), Expected(o, d)) ==> sent == []
    ensures DirComplete(o.listing(WorkDir(path, tempdir)), Expected(o, d)) ==> UploadRun(Expected(o, d), o.accept(d), ok, sent)
    ensures removed <==> ok && path.None?
  {
    var allfiles := Expected(o, d);
    var dumps := WorkDir(path, tempdir);
    var complete := CheckDumpDir(o.listing(dumps), allfiles);
    if !complete {
      return false, [], false;
    }
    ok, sent := UploadAll(allfiles, o.accept(d));
    if !ok {
      return false, sent, false;
    }
    removed := path.None?;
  }

  /** Whether the job `dispatch` runs on a date succeeds. */
  predicate JobSucceeds(o: Origin, job: Job, d: string, path: Option<string>, tempdir: string)
  {
    match job
    case ArchiveJob => ArchiveSucceeds(o, d, path, tempdir)
    case CheckJob => AllRemote(Expected(o, d), o.remote(d))
    case UpdateJob => false
  }

  /**
   * `dispatch` as written: calls `claimItem` whatever the mode (a no-op in
   * debug mode), then runs the job. Archive and check both start with
   * `getFiles`, which raises, so `dispatch` raises before any mark and the
   * claim stays; any other job leaves the claim in place too.
   */
  method DispatchAsWritten(cat: Catalog<string>, job: Job, d: string, debug: bool, host: string)
      returns (raised: bool)
    modifies cat
    ensures raised <==> job != UpdateJob
    ensures debug ==> cat.rows == old(cat.rows)
    ensures !debug ==> cat.rows == if d in old(cat.rows)
                                   then old(cat.rows)[d := Conclude(old(cat.rows)[d], job, Raised, host)]
                                   else old(cat.rows)
  {
    var claimed := ClaimItem(cat, d, debug, host);
    // `archive` and `check` call `getFiles` first, and it raises TypeError
    raised := job != UpdateJob;
  }

  /**
   * As written, a non-debug archive or check of an eligible date strands
   * it: the row leaves the job's queue (the count drops by one) but keeps
   * the claim and the job's flag at "0", so no later run archives or checks it.
   */
  lemma DispatchStrandsRow(rows: map<string, Row>, job: Job, d: string, host: string)
    requires job != UpdateJob
    requires d in rows && Eligible(rows[d], WorkFilter(job))
    ensures var r := Conclude(rows[d], job, Raised, host);
            && r.claimedBy == Some(host)
            && (job == ArchiveJob ==> r.isArchived == 0)
            && (job == CheckJob ==> r.isChecked == 0)
            && ItemsLeft(rows[d := r], job) == ItemsLeft(rows, job) - 1
  {
    var r := Conclude(rows[d], job, Raised, host);
    RaisedRowIsStranded(rows[d], job, host, WorkFilter(job));
    LeavingShrinksCount(rows, d, r, WorkFilter(job));
  }

  /**
   * `dispatch` with the corrected `getFiles`: calls `claimItem` whatever the
   * mode (a no-op in debug mode), runs the job, then returns its outcome
   * (debug mode) or marks the row with it, which releases the claim. Any
   * other job leaves the claim in place.
   */
  method Dispatch(cat: Catalog<string>, job: Job, d: string, path: Option<string>, tempdir: string,
                  o: Origin, debug: bool, host: string)
      returns (status: Option<bool>)
    modifies cat
    ensures debug ==> cat.rows == old(cat.rows)
    ensures status == if debug && job != UpdateJob then Some(JobSucceeds(o, job, d, path, tempdir)) else None
    ensures !debug ==> cat.rows == if d in old(cat.rows)
                                   then old(cat.rows)[d := Settle(old(cat.rows)[d], job, JobSucceeds(o, job, d, path, tempdir), host)]
                                   else old(cat.rows)
  {
    var claimed := ClaimItem(cat, d, debug, host);
    var ok: bool;
    if job == ArchiveJob {
      var sent, removed;
      ok, sent, removed := Archive(o, d, path, tempdir);
    } else if job == CheckJob {
      ok := Check(Expected(o, d), o.remote(d));
    } else {
      return None;
    }
    if debug {
      return Some(ok);
    }
    if job == ArchiveJob {
      if ok {
        cat.MarkArchived(d);
      } else {
        cat.MarkFailedArchive(d);
      }
    } else {
      if ok {
        cat.MarkChecked(d);
      } else {
        cat.MarkFailedCheck(d);
      }
    }
    return None;
  }

  /**
   * A dispatched item leaves its queue: after a non-debug archive or check
   * of an eligible row, the job has exactly one item fewer left.
   */
  lemma DispatchShrinksBacklog(rows: map<string, Row>, job: Job, d: string, ok: bool, host: string)
    requires job != UpdateJob
    requires d in rows && Eligible(rows[d], WorkFilter(job))
    ensures ItemsLeft(rows[d := Settle(rows[d], job, ok, host)], job) == ItemsLeft(rows, job) - 1
  {
    SettleLeavesQueue(rows[d], job, ok, host, WorkFilter(job));
    LeavingShrinksCount(rows, d, Settle(rows[d], job, ok, host), WorkFilter(job));
  }

  // ---------------------------------------------------------------------
  // Update
  // ---------------------------------------------------------------------

  /** The table with a row for `d`: the row `addNewItem` would insert when there is none. */
  function Admit(rows: map<string, Row>, d: string): map<string, Row>
  {
    if d in rows then rows else rows[d := NewRow(None)]
  }

  /** The table after `updateCanArchive(d, 1)`: only an existing row changes. */
  function Allow(rows: map<string, Row>, d: string): map<string, Row>
  {
    if d in rows then rows[d := rows[d].(canArchive := 1)] else rows
  }

  /**
   * The table after the daily update as evidently intended: today's dump is
   * registered, and yesterday's and the day before's are registered if need
   * be and made archivable.
   */
  function Refreshed(rows: map<string, Row>, today: string, yesterday: string, daybefore: string): map<string, Row>
  {
    Allow(Admit(Allow(Admit(Admit(rows, today), yesterday), yesterday), daybefore), daybefore)
  }

  /**
   * What the intended update leaves: exactly the three dates are added,
   * yesterday's and the day before's rows are archivable, and a new row for
   * today is not (the day is still being counted).
   */
  lemma RefreshedRows(rows: map<string, Row>, today: string, yesterday: string, daybefore: string)
    ensures Refreshed(rows, today, yesterday, daybefore).Keys == rows.Keys + {today, yesterday, daybefore}
    ensures Refreshed(rows, today, yesterday, daybefore)[yesterday].canArchive == 1
    ensures Refreshed(rows, today, yesterday, daybefore)[daybefore].canArchive == 1
    ensures today !in rows && today != yesterday && today != daybefore ==>
              Refreshed(rows, today, yesterday, daybefore)[today] == NewRow(None)
  {
    var r1 := Admit(rows, today);
    var r3 := Allow(Admit(r1, yesterday), yesterday);
    var r5 := Allow(Admit(r3, daybefore), daybefore);
    assert r1.Keys == rows.Keys + {today};
    assert r3.Keys == r1.Keys + {yesterday};
    assert r5.Keys == r3.Keys + {daybefore};
  }

  /**
   * The intended update changes no other row, and only `can_archive` of the
   * rows it finds; the rows it adds for yesterday and the day before are
   * fresh rows that may be archived.
   */
  lemma RefreshedKeepsOthers(rows: map<string, Row>, today: string, yesterday: string, daybefore: string)
    ensures forall d :: d in rows && d != yesterday && d != daybefore ==>
              Refreshed(rows, today, yesterday, daybefore)[d] == rows[d]
    ensures forall d :: d in rows ==>
              Refreshed(rows, today, yesterday, daybefore)[d] == rows[d].(canArchive := Refreshed(rows, today, yesterday, daybefore)[d].canArchive)
    ensures forall d :: d in {yesterday, daybefore} && d !in rows ==>
              Refreshed(rows, today, yesterday, daybefore)[d] == NewRow(None).(canArchive := 1)
  {
    var r1 := Admit(rows, today);
    var r3 := Allow(Admit(r1, yesterday), yesterday);
    var r5 := Allow(Admit(r3, daybefore), daybefore);
    assert forall d :: d in rows ==> r1[d] == rows[d];
  }

  /** Running the intended update twice on the same day changes nothing the first run did not. */
  lemma {:induction false} RefreshIdempotent(rows: map<string, Row>, today: string, yesterday: string, daybefore: string)
    ensures Refreshed(Refreshed(rows, today, yesterday, daybefore), today, yesterday, daybefore)
            == Refreshed(rows, today, yesterday, daybefore)
  {
    var r := Refreshed(rows, today, yesterday, daybefore);
    var r2 := Refreshed(r, today, yesterday, daybefore);
    RefreshedRows(rows, today, yesterday, daybefore);
    RefreshedRows(r, today, yesterday, daybefore);
    RefreshedKeepsOthers(r, today, yesterday, daybefore);
    assert r2.Keys == r.Keys;
    forall d | d in r
      ensures r2[d] == r[d]
    {
      if d == yesterday || d == daybefore {
        assert r2[d].canArchive == 1 == r[d].canArchive;
      }
    }
  }

  /**
   * After the intended update, yesterday's dump is waiting for the archive
   * job unless it was already claimed or archived (or had failed).
   */
  lemma RefreshQueuesYesterday(rows: map<string, Row>, today: string, yesterday: string, daybefore: string)
    ensures Eligible(Refreshed(rows, today, yesterday, daybefore)[yesterday], WorkFilter(ArchiveJob)) <==>
              (yesterday !in rows || (rows[yesterday].claimedBy.None? && rows[yesterday].isArchived == 0))
  {
    RefreshedRows(rows, today, yesterday, daybefore);
    RefreshedKeepsOthers(rows, today, yesterday, daybefore);
  }

  /**
   * `addNewItem`, which `update` calls but the class does not define, as the
   * other families define it: inserts a fresh row for the date, and fails
   * when the date already has one.
   */
  method AddNewItem(cat: Catalog<string>, d: string) returns (ok: bool)
    modifies cat
    ensures ok <==> d !in old(cat.rows)
    ensures cat.rows == Admit(old(cat.rows), d)
  {
    ok := cat.Insert(d, NewRow(None));
  }

  /**
   * The daily `update` as evidently intended: reads the stored dates once,
   * inserts today's date when it is not among them, and for yesterday and
   * the day before inserts the date when it is not among them and then sets
   * `can_archive` to "1". An insert of a date the table holds outside the
   * 30-date window fails and changes nothing.
   */
  method Update(cat: Catalog<string>, today: string, yesterday: string, daybefore: string) returns (ok: bool)
    modifies cat
    ensures ok
    ensures cat.rows == Refreshed(old(cat.rows), today, yesterday, daybefore)
  {
    var alldumps := GetDumpDates(cat, None);
    ghost var r0 := cat.rows;
    var added: bool;
    if today !in alldumps {
      added := AddNewItem(cat, today);
    }
    assert cat.rows == Admit(r0, today);
    ghost var r1 := cat.rows;
    if yesterday !in alldumps {
      added := AddNewItem(cat, yesterday);
    }
    assert cat.rows == Admit(r1, yesterday);
    cat.UpdateCanArchive(yesterday, 1);
    ghost var r2 := cat.rows;
    if daybefore !in alldumps {
      added := AddNewItem(cat, daybefore);
    }
    assert cat.rows == Admit(r2, daybefore);
    cat.UpdateCanArchive(daybefore, 1);
    return true;
  }

  /** How the update as written ends: it returns True, or raises with the table as it was left. */
  datatype Ending = Finished(rows: map<string, Row>) | RaisedWith(rows: map<string, Row>)

  /**
   * The update as written: any of the three dates missing from the 30-date
   * window reaches the call of the undefined `addNewItem`, which raises;
   * yesterday's row is made archivable before the day before is looked at.
   */
  ghost function AsWritten(rows: map<string, Row>, today: string, yesterday: string, daybefore: string): Ending
  {
    var window := Newest(DatesWhere(rows, None), 30);
    if today !in window || yesterday !in window then RaisedWith(rows)
    else if daybefore !in window then RaisedWith(Allow(rows, yesterday))
    else Finished(Allow(Allow(rows, yesterday), daybefore))
  }

  /** `update` as written; `finished` is False where it raises. */
  method UpdateAsWritten(cat: Catalog<string>, today: string, yesterday: string, daybefore: string) returns (finished: bool)
    modifies cat
    ensures cat.rows == AsWritten(old(cat.rows), today, yesterday, daybefore).rows
    ensures finished <==> AsWritten(old(cat.rows), today, yesterday, daybefore).Finished?
  {
    var alldumps := GetDumpDates(cat, None);
    if today !in alldumps {
      return false;
    }
    if yesterday in alldumps {
      cat.UpdateCanArchive(yesterday, 1);
    } else {
      return false;
    }
    if daybefore in alldumps {
      cat.UpdateCanArchive(daybefore, 1);
    } else {
      return false;
    }
    return true;
  }

  /**
   * The update as written never adds a row, and raises whenever today's
   * date has none; the intended update always leaves a row for today.
   */
  lemma AsWrittenNeverRegisters(rows: map<string, Row>, today: string, yesterday: string, daybefore: string)
    ensures AsWritten(rows, today, yesterday, daybefore).rows.Keys == rows.Keys
    ensures today !in rows ==> AsWritten(rows, today, yesterday, daybefore) == RaisedWith(rows)
    ensures today in Refreshed(rows, today, yesterday, daybefore)
  {
    RefreshedRows(rows, today, yesterday, daybefore);
  }

  /**
   * On an empty table the update as written raises and leaves the table
   * empty, so the table never gains a row through it, whereas the intended
   * update registers the three days.
   */
  lemma EmptyTableStaysEmpty()
    ensures AsWritten(map[], "20160103", "20160102", "20160101") == RaisedWith(map[])
    ensures Refreshed(map[], "20160103", "20160102", "20160101").Keys == {"20160103", "20160102", "20160101"}
  {
    RefreshedRows(map[], "20160103", "20160102", "20160101");
  }
}
