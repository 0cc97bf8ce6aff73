/**
 * The older stand-alone script for the main database dumps (`dumps.py`):
 * its own status tally, a `check` that marks the row itself, and a
 * three-step `update`. It reads the same outside world as the module
 * version (`MainDumps.Origin`) and writes the same catalog.
 */
module LegacyDumps {
  import opened DateOrder
  import opened CatalogStore
  import opened SourceInspector
  import MainDumps

  // ---------------------------------------------------------------------
  // The status tally
  // ---------------------------------------------------------------------

  /**
   * The legacy reading of a dump's job statuses: any "failed" job is an
   * error; otherwise a running or waiting job means in progress, a "done"
   * job means done, and anything else (no job, or only statuses such as
   * "skipped") is unknown. Unrecognised statuses are passed over.
   */
  function RunStatus(s: seq<string>): Progress
  {
    if "failed" in s then Error
    else if exists i :: 0 <= i < |s| && MainDumps.IsPending(s[i]) then InProgress
    else if "done" in s then Done
    else Unknown
  }

  /** `getDumpProgress`: returns at the first "failed", otherwise decides by its two counters. */
  method GetDumpProgress(statuses: seq<string>) returns (output: Progress)
    ensures output == RunStatus(statuses)
  {
    var progress := 0;
    var done := 0;
    for i := 0 to |statuses|
      invariant forall j :: 0 <= j < i ==> statuses[j] != "failed"
      invariant progress > 0 <==> exists j :: 0 <= j < i && MainDumps.IsPending(statuses[j])
      invariant done > 0 <==> exists j :: 0 <= j < i && statuses[j] == "done"
    {
      var status := statuses[i];
      if status == "failed" {
        return Error;
      } else if status == "in-progress" || status == "waiting" {
        progress := progress + 1;
      } else if status == "done" {
        done := done + 1;
      }
    }
    if progress > 0 {
      output := InProgress;
    } else if done > 0 {
      output := Done;
    } else {
      output := Unknown;
    }
  }

  /**
   * When every status is "failed", "in-progress", "waiting" or "done", the
   * legacy tally and the module's tally agree.
   */
  lemma RunStatusAgrees(s: seq<string>)
    requires forall i :: 0 <= i < |s| ==> s[i] in {"failed", "in-progress", "waiting", "done"}
    ensures RunStatus(s) == MainDumps.DumpRunStatus(s)
  {
    MainDumps.FirstHaltMeaning(s);
    MainDumps.AnyPendingMeaning(s);
    var h := MainDumps.FirstHalt(s);
    if h < |s| {
      assert s[h] == "failed";
    } else {
      assert "failed" !in s;
      if |s| > 0 && !MainDumps.AnyPending(s) {
        assert s[0] == "done";
      }
    }
  }

  /**
   * Where the two tallies part: the legacy one ignores "skipped" jobs, so an
   * all-skipped dump is unknown rather than done, and it keeps scanning
   * past an unrecognised status, so a later "failed" still makes an error.
   */
  lemma RunStatusDiffers()
    ensures RunStatus(["skipped"]) == Unknown && MainDumps.DumpRunStatus(["skipped"]) == Done
    ensures RunStatus(["killed", "failed"]) == Error && MainDumps.DumpRunStatus(["killed", "failed"]) == Unknown
  {
    assert ["killed", "failed"][1] == "failed";
    assert MainDumps.FirstHalt(["skipped"][1..]) == 0;
  }

  /** The dump's progress as the legacy tally reads it. */
  function Probe(o: MainDumps.Origin, k: Key): Progress
  {
    RunStatus(o.statuses(k))
  }

  // ---------------------------------------------------------------------
  // Check
  // ---------------------------------------------------------------------

  /**
   * `check`: compares the expected files with the item's file list, then
   * marks the row checked (True) or failed check (False) itself.
   */
  method CheckAndMark(cat: Catalog<Key>, o: MainDumps.Origin, k: Key) returns (complete: bool)
    modifies cat
    ensures complete <==> AllRemote(MainDumps.Expected(o, k), o.remote(k))
    ensures k in old(cat.rows) ==>
              cat.rows == old(cat.rows)[k := old(cat.rows)[k].(isChecked := if complete then 1 else 2, claimedBy := None)]
    ensures k !in old(cat.rows) ==> cat.rows == old(cat.rows)
  {
    complete := Check(MainDumps.Expected(o, k), o.remote(k));
    if complete {
      cat.MarkChecked(k);
    } else {
      cat.MarkFailedCheck(k);
    }
  }

  // ---------------------------------------------------------------------
  // Update
  // ---------------------------------------------------------------------

  /** The rows step 2 reads: progress "progress". */
  const InProgressRows: Filter := Filter(Some(InProgress), None, None, None)

  /** The rows step 3 reads: `can_archive` "0", whatever their progress. */
  const CannotArchive: Filter := Filter(None, Some(0), None, None)

  /** The row step 1 inserts for a date: the legacy-probed progress, every flag "0". */
  function NewDumpRow(o: MainDumps.Origin, db: string): string -> Row
  {
    d => NewRow(Some(Probe(o, (db, d))))
  }

  /** Step 2: an in-progress dump whose fresh legacy status is no longer "progress" takes that status. */
  function RecheckProgress(o: MainDumps.Origin, db: string): string -> Option<Edit>
  {
    d => if Probe(o, (db, d)) != InProgress then Some(SetProgress(Probe(o, (db, d)))) else None
  }

  /**
   * One wiki's pass of the legacy `update`: the stored, in-progress and
   * not-archivable lists are all read before step 1; step 3 uses the same
   * rule as the module's step 3 (`MainDumps.Promote`) but over every row
   * whose `can_archive` is "0".
   */
  ghost function ReconcileWiki(rows: map<Key, Row>, db: string, o: MainDumps.Origin): map<Key, Row>
  {
    var r1 := Register(rows, db, AllDumps(o.listing(db), o.isDumpDate), DatesOf(rows, db, AnyRow),
                       MainDumps.AnyDate, NewDumpRow(o, db));
    var r2 := Retouch(r1, db, DatesOf(rows, db, InProgressRows), RecheckProgress(o, db));
    Retouch(r2, db, DatesOf(rows, db, CannotArchive), MainDumps.Promote(o, db))
  }

  /** The legacy `update`: one pass per public wiki, in list order. */
  ghost function ReconcileAll(rows: map<Key, Row>, wikis: seq<string>, o: MainDumps.Origin): map<Key, Row>
    decreases |wikis|
  {
    if wikis == [] then rows
    else ReconcileWiki(ReconcileAll(rows, wikis[..|wikis| - 1], o), wikis[|wikis| - 1], o)
  }

  /**
   * `sqldb.getAllDumps(db, ...)`: every stored date of the wiki whose row
   * matches the conditions (the order is the store's; here newest first).
   */
  method StoredDates(cat: Catalog<Key>, db: string, f: Filter) returns (dates: seq<string>)
    ensures Elems(dates) == DatesOf(cat.rows, db, f)
  {
    var all := DatesOf(cat.rows, db, f);
    dates := NewestFirst(all, |all|);
    NewestOfSmallSet(all, |all|);
  }

  /** Step 1: every listed dump that is not in the stored list is probed and added. */
  method RegisterNewDumps(cat: Catalog<Key>, db: string, o: MainDumps.Origin, dumps: seq<string>, stored: seq<string>)
    modifies cat
    ensures cat.rows == Register(old(cat.rows), db, dumps, Elems(stored), MainDumps.AnyDate, NewDumpRow(o, db))
  {
    ghost var rows0 := cat.rows;
    for i := 0 to |dumps|
      invariant cat.rows == RegisterEach(rows0, db, dumps[..i], Elems(stored), MainDumps.AnyDate, NewDumpRow(o, db))
    {
      var dump := dumps[i];
      assert dumps[..i + 1][..i] == dumps[..i];
      if dump !in stored {
        var progress := GetDumpProgress(o.statuses((db, dump)));
        assert NewDumpRow(o, db)(dump) == NewRow(Some(progress));
        var added := cat.Insert((db, dump), NewRow(Some(progress)));
      }
    }
    assert dumps[..|dumps|] == dumps;
    RegisterEachIsRegister(rows0, db, dumps, Elems(stored), MainDumps.AnyDate, NewDumpRow(o, db));
  }

  /** Step 2: re-probes each in-progress dump and records a status other than "progress". */
  method RecheckInProgress(cat: Catalog<Key>, db: string, o: MainDumps.Origin, inprogress: seq<string>)
    modifies cat
    ensures cat.rows == Retouch(old(cat.rows), db, Elems(inprogress), RecheckProgress(o, db))
  {
    ghost var rows0 := cat.rows;
    for i := 0 to |inprogress|
      invariant cat.rows == RetouchEach(rows0, db, inprogress[..i], RecheckProgress(o, db))
    {
      assert inprogress[..i + 1][..i] == inprogress[..i];
      RecheckOneInProgress(cat, db, o, inprogress[i]);
    }
    assert inprogress[..|inprogress|] == inprogress;
    RetouchEachIsRetouch(rows0, db, inprogress, RecheckProgress(o, db));
  }

  /** One round of step 2. */
  method RecheckOneInProgress(cat: Catalog<Key>, db: string, o: MainDumps.Origin, dump: string)
    modifies cat
    ensures cat.rows == Touch(old(cat.rows), (db, dump), RecheckProgress(o, db)(dump))
  {
    var progress := GetDumpProgress(o.statuses((db, dump)));
    if progress != InProgress {
      cat.UpdateProgress((db, dump), progress);
    }
  }

  /** One wiki's pass: reads the three lists, then runs the three steps (step 3 is the module's loop). */
  method UpdateWiki(cat: Catalog<Key>, db: string, o: MainDumps.Origin)
    modifies cat
    ensures cat.rows == ReconcileWiki(old(cat.rows), db, o)
  {
    var dumps := GetAllDumps(o.listing(db), o.isDumpDate);
    var stored := StoredDates(cat, db, AnyRow);
    var inprogress := StoredDates(cat, db, InProgressRows);
    var cannotarc := StoredDates(cat, db, CannotArchive);
    RegisterNewDumps(cat, db, o, dumps, stored);
    RecheckInProgress(cat, db, o, inprogress);
    MainDumps.PromoteComplete(cat, db, o, cannotarc);
  }

  /** `update`: one pass per public wiki, in list order. */
  method Update(cat: Catalog<Key>, wikis: seq<string>, o: MainDumps.Origin) returns (ok: bool)
    modifies cat
    ensures ok
    ensures cat.rows == ReconcileAll(old(cat.rows), wikis, o)
  {
    ghost var rows0 := cat.rows;
    for i := 0 to |wikis|
      invariant cat.rows == ReconcileAll(rows0, wikis[..i], o)
    {
      assert wikis[..i + 1][..i] == wikis[..i];
      UpdateWiki(cat, wikis[i], o);
    }
    assert wikis[..|wikis|] == wikis;
    return true;
  }

  // ---------------------------------------------------------------------
  // What one pass does to a wiki's rows
  // ---------------------------------------------------------------------

  /**
   * An existing row after a pass, given the fresh legacy status and whether
   * its directory is complete: an in-progress row takes a status other than
   * "progress", and a row that may not be archived becomes archivable once
   * its directory is complete, whatever its progress.
   */
  function PassRow(r: Row, probe: Progress, complete: bool): Row
  {
    Steps(r, r.progress == Some(InProgress), r.canArchive == 0, probe, complete)
  }

  /** Steps 2 and 3 on one row, given whether its date is in each step's list. */
  function Steps(r: Row, inprogress: bool, cannotarc: bool, probe: Progress, complete: bool): Row
  {
    var r2 := if inprogress && probe != InProgress then r.(progress := Some(probe)) else r;
    if cannotarc && complete then r2.(canArchive := 1) else r2
  }

  /** Step 2 at one existing row. */
  lemma RecheckProgressAt(rows: map<Key, Row>, db: string, o: MainDumps.Origin, dates: set<string>, d: string)
    requires (db, d) in rows
    ensures (db, d) in Retouch(rows, db, dates, RecheckProgress(o, db))
    ensures Retouch(rows, db, dates, RecheckProgress(o, db))[(db, d)] ==
              if d in dates && Probe(o, (db, d)) != InProgress then rows[(db, d)].(progress := Some(Probe(o, (db, d))))
              else rows[(db, d)]
  {
    RetouchAt(rows, db, dates, RecheckProgress(o, db), d);
  }

  lemma PassChain(r1: map<Key, Row>, r2: map<Key, Row>, r3: map<Key, Row>, db: string, o: MainDumps.Origin,
                  inprogress: set<string>, cannotarc: set<string>, d: string)
    requires (db, d) in r1
    requires r2 == Retouch(r1, db, inprogress, RecheckProgress(o, db))
    requires r3 == Retouch(r2, db, cannotarc, MainDumps.Promote(o, db))
    ensures (db, d) in r3
    ensures r3[(db, d)] == Steps(r1[(db, d)], d in inprogress, d in cannotarc, Probe(o, (db, d)), MainDumps.Complete(o, (db, d)))
  {
    RecheckProgressAt(r1, db, o, inprogress, d);
    MainDumps.PromoteAt(r2, db, o, cannotarc, d);
  }

  /** An existing row is in a list read before step 1 exactly when it matches the list's conditions. */
  lemma ListedWhenMatching(rows: map<Key, Row>, db: string, d: string)
    requires (db, d) in rows
    ensures d in DatesOf(rows, db, InProgressRows) <==> rows[(db, d)].progress == Some(InProgress)
    ensures d in DatesOf(rows, db, CannotArchive) <==> rows[(db, d)].canArchive == 0
  {
  }

  /** A pass over `db` leaves each existing row of `db` as `PassRow` says. */
  lemma ReconcileWikiAt(rows: map<Key, Row>, db: string, o: MainDumps.Origin, d: string)
    requires (db, d) in rows
    ensures (db, d) in ReconcileWiki(rows, db, o)
    ensures ReconcileWiki(rows, db, o)[(db, d)] == PassRow(rows[(db, d)], Probe(o, (db, d)), MainDumps.Complete(o, (db, d)))
  {
    var inprogress := DatesOf(rows, db, InProgressRows);
    var cannotarc := DatesOf(rows, db, CannotArchive);
    var r1 := Register(rows, db, AllDumps(o.listing(db), o.isDumpDate), DatesOf(rows, db, AnyRow),
                       MainDumps.AnyDate, NewDumpRow(o, db));
    var r2 := Retouch(r1, db, inprogress, RecheckProgress(o, db));
    var r3 := Retouch(r2, db, cannotarc, MainDumps.Promote(o, db));
    assert r3 == ReconcileWiki(rows, db, o);
    RegisterFrame(rows, db, AllDumps(o.listing(db), o.isDumpDate), DatesOf(rows, db, AnyRow),
                  MainDumps.AnyDate, NewDumpRow(o, db));
    assert r1[(db, d)] == rows[(db, d)];
    PassChain(r1, r2, r3, db, o, inprogress, cannotarc, d);
    ListedWhenMatching(rows, db, d);
  }

  /**
   * Step 3 has no "done" condition: a row that may not be archived leaves
   * the pass archivable exactly when its directory is complete, even when
   * its dump failed or is still running.
   */
  lemma PromotesWhateverProgress(rows: map<Key, Row>, db: string, o: MainDumps.Origin, d: string)
    requires (db, d) in rows && rows[(db, d)].canArchive == 0
    ensures ReconcileWiki(rows, db, o)[(db, d)].canArchive == if MainDumps.Complete(o, (db, d)) then 1 else 0
  {
    ReconcileWikiAt(rows, db, o, d);
  }

  /**
   * Where the two reconcilers part: a failed dump whose directory is
   * complete becomes archivable in the legacy pass but not in the module's.
   */
  lemma FailedDumpPromotedOnlyHere(rows: map<Key, Row>, db: string, o: MainDumps.Origin, limit: nat, d: string)
    requires (db, d) in rows && rows[(db, d)].canArchive == 0 && rows[(db, d)].progress == Some(Error)
    requires MainDumps.Complete(o, (db, d))
    ensures ReconcileWiki(rows, db, o)[(db, d)].canArchive == 1
    ensures MainDumps.ReconcileWiki(rows, db, o, limit)[(db, d)].canArchive == 0
  {
    PromotesWhateverProgress(rows, db, o, d);
    MainDumps.ReconcileWikiAt(rows, db, o, limit, d);
    MainDumps.SnapWithin(rows, db, limit, d);
  }

  /**
   * A pass never deletes a row and never touches another wiki's rows; it
   * writes only `progress` and `can_archive` of the rows it had; a row it
   * adds is a listed dump with the legacy-probed progress and every flag
   * "0", so it waits for the next pass to become archivable.
   */
  lemma ReconcileWikiFrame(rows: map<Key, Row>, db: string, o: MainDumps.Origin)
    ensures rows.Keys <= ReconcileWiki(rows, db, o).Keys
    ensures forall k :: k in rows ==>
              && ReconcileWiki(rows, db, o)[k].isArchived == rows[k].isArchived
              && ReconcileWiki(rows, db, o)[k].isChecked == rows[k].isChecked
              && ReconcileWiki(rows, db, o)[k].claimedBy == rows[k].claimedBy
              && ReconcileWiki(rows, db, o)[k].comments == rows[k].comments
    ensures forall k :: k in ReconcileWiki(rows, db, o) && k !in rows ==>
              && k.0 == db && k.1 in AllDumps(o.listing(db), o.isDumpDate)
              && ReconcileWiki(rows, db, o)[k] == NewRow(Some(Probe(o, k)))
    ensures forall k: Key :: k.0 != db ==>
              && (k in ReconcileWiki(rows, db, o) <==> k in rows)
              && (k in rows ==> ReconcileWiki(rows, db, o)[k] == rows[k])
  {
    var listed := AllDumps(o.listing(db), o.isDumpDate);
    var r1 := Register(rows, db, listed, DatesOf(rows, db, AnyRow), MainDumps.AnyDate, NewDumpRow(o, db));
    var r2 := Retouch(r1, db, DatesOf(rows, db, InProgressRows), RecheckProgress(o, db));
    var r3 := Retouch(r2, db, DatesOf(rows, db, CannotArchive), MainDumps.Promote(o, db));
    assert r3 == ReconcileWiki(rows, db, o);
    RegisterFrame(rows, db, listed, DatesOf(rows, db, AnyRow), MainDumps.AnyDate, NewDumpRow(o, db));
    RetouchFrame(r1, db, DatesOf(rows, db, InProgressRows), RecheckProgress(o, db));
    RetouchFrame(r2, db, DatesOf(rows, db, CannotArchive), MainDumps.Promote(o, db));
    forall k | k in r3 && k !in rows
      ensures k.0 == db && k.1 in listed && r3[k] == NewRow(Some(Probe(o, k)))
    {
      assert k.1 !in DatesOf(rows, db, InProgressRows);
      assert k.1 !in DatesOf(rows, db, CannotArchive);
    }
  }
}
