/**
 * The Wikibase JSON dump family (`modules/wikidata.py`): the link clean-up
 * its scraper applies, its work queries (no `progress` column), its
 * three-step `update`, in which each step reads its list after the previous
 * step has run, and the upload selection, `archive` and `dispatch`, both as
 * written (the selection is None on most paths, so `archive` raises) and as
 * evidently intended.
 */
module Wikidata {
  import opened DateOrder
  import opened CatalogStore
  import opened SourceInspector

  // ---------------------------------------------------------------------
  // Link clean-up
  // ---------------------------------------------------------------------

  /** A link without its one trailing slash, if it has one. */
  function StripSlash(h: string): (r: string)
    ensures |h| > 0 && h[|h| - 1] == '/' ==> r + "/" == h
    ensures !(|h| > 0 && h[|h| - 1] == '/') ==> r == h
  {
    if |h| > 0 && h[|h| - 1] == '/' then h[..|h| - 1] else h
  }

  /** The links of an index page in page order, without the parent directory and with one trailing slash stripped. */
  function CleanLinks(hrefs: seq<string>): (r: seq<string>)
    ensures |r| <= |hrefs|
    ensures forall x :: x in r <==> exists h :: h in hrefs && h != "../" && StripSlash(h) == x
  {
    if hrefs == [] then []
    else
      var last := hrefs[|hrefs| - 1];
      assert hrefs == hrefs[..|hrefs| - 1] + [last];
      CleanLinks(hrefs[..|hrefs| - 1]) + (if last == "../" then [] else [StripSlash(last)])
  }

  /**
   * `extractLinks` after the scrape: the cleaned links, sorted. The parent
   * directory is dropped, every other link is kept once per occurrence.
   */
  function ExtractLinks(hrefs: seq<string>): (r: seq<string>)
    ensures Ascending(r)
    ensures multiset(r) == multiset(CleanLinks(hrefs))
    ensures forall x :: x in r <==> x in CleanLinks(hrefs)
  {
    var r := SortAscending(CleanLinks(hrefs));
    assert forall x :: x in r <==> x in multiset(CleanLinks(hrefs));
    r
  }

  /** The parent-directory link is the only one dropped: a page without it loses no link. */
  lemma {:induction false} CleanLinksKeepsCount(hrefs: seq<string>)
    requires "../" !in hrefs
    ensures |CleanLinks(hrefs)| == |hrefs|
    decreases |hrefs|
  {
    if hrefs != [] {
      var n := |hrefs| - 1;
      assert hrefs == hrefs[..n] + [hrefs[n]];
      assert "../" !in hrefs[..n];
      CleanLinksKeepsCount(hrefs[..n]);
    }
  }

  // ---------------------------------------------------------------------
  // Work queries
  // ---------------------------------------------------------------------

  /**
   * `getItemsLeft`'s and `getRandomItemSql`'s conditions, which agree here:
   * archivable and not archived, or archived and not checked.
   */
  function WorkFilter(job: Job): Filter
    requires job != UpdateJob
  {
    if job == ArchiveJob then Filter(None, Some(1), Some(0), None)
    else Filter(None, None, Some(1), Some(0))
  }

  /** `getItemsLeft`: the unclaimed rows left for the job; any other job counts none. */
  function ItemsLeft(rows: map<Key, Row>, job: Job): nat
  {
    if job == UpdateJob then 0 else CountWhere(rows, WorkFilter(job))
  }

  /** What the counts count, column by column: no `progress` condition. */
  lemma ItemsLeftMeaning(rows: map<Key, Row>)
    ensures ItemsLeft(rows, ArchiveJob) > 0 <==>
              exists k :: k in rows && rows[k].claimedBy.None? && rows[k].isArchived == 0 && rows[k].canArchive == 1
    ensures ItemsLeft(rows, CheckJob) > 0 <==>
              exists k :: k in rows && rows[k].claimedBy.None? && rows[k].isArchived == 1 && rows[k].isChecked == 0
    ensures ItemsLeft(rows, UpdateJob) == 0
  {
    var a := KeysWhere(rows, WorkFilter(ArchiveJob));
    var c := KeysWhere(rows, WorkFilter(CheckJob));
    if k :| k in rows && rows[k].claimedBy.None? && rows[k].isArchived == 0 && rows[k].canArchive == 1 {
      assert k in a;
    }
    if k :| k in rows && rows[k].claimedBy.None? && rows[k].isArchived == 1 && rows[k].isChecked == 0 {
      assert k in c;
    }
    if a != {} {
      var k :| k in a;
    }
    if c != {} {
      var k :| k in c;
    }
  }

  /**
   * `getRandomItemSql`: an unclaimed row the job may take (archived ones for
   * the check job), or None when the query returns nothing.
   */
  method GetRandomItemSql(rows: map<Key, Row>, archived: bool) returns (item: Option<Key>)
    ensures item.Some? ==> item.value in rows && Eligible(rows[item.value], WorkFilter(if archived then CheckJob else ArchiveJob))
    ensures item.None? <==> ItemsLeft(rows, if archived then CheckJob else ArchiveJob) == 0
  {
    item := PickWhere(rows, WorkFilter(if archived then CheckJob else ArchiveJob));
  }

  // ---------------------------------------------------------------------
  // The update reconciler
  // ---------------------------------------------------------------------

  const NotArchivable: Filter := Filter(None, Some(0), None, None)
  const Archivable: Filter := Filter(None, Some(1), None, None)

  /** The row `addNewItem` inserts: flags "0", no progress column. */
  function Registered(d: string): Row
  {
    NewRow(None)
  }

  /**
   * `addNewItem`: a link that does not parse as `%Y%m%d` is rejected with no
   * insert; otherwise the row is inserted, which fails on an existing key.
   */
  method AddNewItem(cat: Catalog<Key>, k: Key, isDumpDate: string -> bool) returns (ok: bool)
    modifies cat
    ensures ok <==> isDumpDate(k.1) && k !in old(cat.rows)
    ensures cat.rows == if ok then old(cat.rows)[k := Registered(k.1)] else old(cat.rows)
  {
    if !isDumpDate(k.1) {
      return false;
    }
    ok := cat.Insert(k, Registered(k.1));
  }

  /** Step 2 promotes a date no later than the cutoff that the origin still lists. */
  function Ripe(cutoff: string, alldumps: seq<string>): string -> Option<Edit>
  {
    d => if NotAfter(d, cutoff) && d in alldumps then Some(SetCanArchive(1)) else None
  }

  /** Step 3 withdraws a date the origin no longer lists. */
  function Withdrawn(alldumps: seq<string>): string -> Option<Edit>
  {
    d => if d in alldumps then None else Some(SetCanArchive(0))
  }

  /** One database's pass of `update`: each step reads its list after the previous one has run. */
  ghost function ReconcileDatabase(rows: map<Key, Row>, db: string, alldumps: seq<string>, isDumpDate: string -> bool,
                                   cutoff: string, limit: nat): map<Key, Row>
  {
    var r1 := Register(rows, db, alldumps, Newest(DatesOf(rows, db, AnyRow), limit), isDumpDate, Registered);
    var r2 := Retouch(r1, db, Newest(DatesOf(r1, db, NotArchivable), limit), Ripe(cutoff, alldumps));
    Retouch(r2, db, Newest(DatesOf(r2, db, Archivable), limit), Withdrawn(alldumps))
  }

  /** `update`: one pass per database the root index links, in link order. */
  ghost function ReconcileAll(rows: map<Key, Row>, dbs: seq<string>, links: string -> seq<string>,
                              isDumpDate: string -> bool, cutoff: string, limit: nat): map<Key, Row>
    decreases |dbs|
  {
    if dbs == [] then rows
    else
      var db := dbs[|dbs| - 1];
      ReconcileDatabase(ReconcileAll(rows, dbs[..|dbs| - 1], links, isDumpDate, cutoff, limit),
                        db, ExtractLinks(links(db)), isDumpDate, cutoff, limit)
  }

  /** `updateNewDumps`: each listed date not in the stored list is offered to `addNewItem`. */
  method UpdateNewDumps(cat: Catalog<Key>, db: string, alldumps: seq<string>, isDumpDate: string -> bool, limit: nat)
    modifies cat
    ensures cat.rows == Register(old(cat.rows), db, alldumps, Newest(DatesOf(old(cat.rows), db, AnyRow), limit),
                                 isDumpDate, Registered)
  {
    var stored := GetStoredDumps(cat, db, AnyRow, limit);
    ghost var rows0 := cat.rows;
    for i := 0 to |alldumps|
      invariant cat.rows == RegisterEach(rows0, db, alldumps[..i], Elems(stored), isDumpDate, Registered)
    {
      assert alldumps[..i + 1][..i] == alldumps[..i];
      var dump := alldumps[i];
      if dump !in stored {
        var added := AddNewItem(cat, (db, dump), isDumpDate);
      }
    }
    assert alldumps[..|alldumps|] == alldumps;
    RegisterEachIsRegister(rows0, db, alldumps, Elems(stored), isDumpDate, Registered);
  }

  /** `updateCanArchiveStatus`: each not-archivable dump old enough and still listed becomes archivable. */
  method UpdateCanArchiveStatus(cat: Catalog<Key>, db: string, alldumps: seq<string>, cutoff: string, limit: nat)
    modifies cat
    ensures cat.rows == Retouch(old(cat.rows), db, Newest(DatesOf(old(cat.rows), db, NotArchivable), limit),
                                Ripe(cutoff, alldumps))
  {
    var cannotarc := GetStoredDumps(cat, db, NotArchivable, limit);
    ghost var rows0 := cat.rows;
    for i := 0 to |cannotarc|
      invariant cat.rows == RetouchEach(rows0, db, cannotarc[..i], Ripe(cutoff, alldumps))
    {
      assert cannotarc[..i + 1][..i] == cannotarc[..i];
      var dump := cannotarc[i];
      if NotAfter(dump, cutoff) && dump in alldumps {
        cat.UpdateCanArchive((db, dump), 1);
      }
    }
    assert cannotarc[..|cannotarc|] == cannotarc;
    RetouchEachIsRetouch(rows0, db, cannotarc, Ripe(cutoff, alldumps));
  }

  /** `updateOldCanArchiveStatus`: each archivable dump the origin no longer lists stops being archivable. */
  method UpdateOldCanArchiveStatus(cat: Catalog<Key>, db: string, alldumps: seq<string>, limit: nat)
    modifies cat
    ensures cat.rows == Retouch(old(cat.rows), db, Newest(DatesOf(old(cat.rows), db, Archivable), limit),
                                Withdrawn(alldumps))
  {
    var canarc := GetStoredDumps(cat, db, Archivable, limit);
    ghost var rows0 := cat.rows;
    for i := 0 to |canarc|
      invariant cat.rows == RetouchEach(rows0, db, canarc[..i], Withdrawn(alldumps))
    {
      assert canarc[..i + 1][..i] == canarc[..i];
      var dump := canarc[i];
      if dump !in alldumps {
        cat.UpdateCanArchive((db, dump), 0);
      }
    }
    assert canarc[..|canarc|] == canarc;
    RetouchEachIsRetouch(rows0, db, canarc, Withdrawn(alldumps));
  }

  /**
   * `update`: for each database the root index links, the dates its index
   * links go through the three steps. `links` gives the hrefs of the root
   * index (`links("")`) and of each database's index.
   */
  method Update(cat: Catalog<Key>, links: string -> seq<string>, isDumpDate: string -> bool, cutoff: string, limit: nat)
      returns (ok: bool)
    modifies cat
    ensures ok
    ensures cat.rows == ReconcileAll(old(cat.rows), ExtractLinks(links("")), links, isDumpDate, cutoff, limit)
  {
    var databases := ExtractLinks(links(""));
    ghost var rows0 := cat.rows;
    for i := 0 to |databases|
      invariant cat.rows == ReconcileAll(rows0, databases[..i], links, isDumpDate, cutoff, limit)
    {
      ReconcileAllOneMore(rows0, databases, i, links, isDumpDate, cutoff, limit);
      UpdateDatabase(cat, databases[i], ExtractLinks(links(databases[i])), isDumpDate, cutoff, limit);
    }
    assert databases[..|databases|] == databases;
    return true;
  }

  /** The pass over one more database of the list. */
  lemma ReconcileAllOneMore(rows: map<Key, Row>, dbs: seq<string>, i: nat, links: string -> seq<string>,
                            isDumpDate: string -> bool, cutoff: string, limit: nat)
    requires i < |dbs|
    ensures ReconcileAll(rows, dbs[..i + 1], links, isDumpDate, cutoff, limit) ==
              ReconcileDatabase(ReconcileAll(rows, dbs[..i], links, isDumpDate, cutoff, limit),
                                dbs[i], ExtractLinks(links(dbs[i])), isDumpDate, cutoff, limit)
  {
    assert dbs[..i + 1][..i] == dbs[..i];
  }

  /** One database's three steps, each reading its list when it starts. */
  method UpdateDatabase(cat: Catalog<Key>, db: string, alldumps: seq<string>, isDumpDate: string -> bool,
                        cutoff: string, limit: nat)
    modifies cat
    ensures cat.rows == ReconcileDatabase(old(cat.rows), db, alldumps, isDumpDate, cutoff, limit)
  {
    UpdateNewDumps(cat, db, alldumps, isDumpDate, limit);
    UpdateCanArchiveStatus(cat, db, alldumps, cutoff, limit);
    UpdateOldCanArchiveStatus(cat, db, alldumps, limit);
  }

  // ---------------------------------------------------------------------
  // What one pass does to a database's rows
  // ---------------------------------------------------------------------

  /** Step 2 at one existing row. */
  lemma RipeAt(rows: map<Key, Row>, db: string, dates: set<string>, cutoff: string, alldumps: seq<string>, d: string)
    requires (db, d) in rows
    ensures (db, d) in Retouch(rows, db, dates, Ripe(cutoff, alldumps))
    ensures Retouch(rows, db, dates, Ripe(cutoff, alldumps))[(db, d)] ==
              if d in dates && NotAfter(d, cutoff) && d in alldumps then rows[(db, d)].(canArchive := 1) else rows[(db, d)]
  {
    RetouchAt(rows, db, dates, Ripe(cutoff, alldumps), d);
  }

  /** Step 3 at one existing row. */
  lemma WithdrawnAt(rows: map<Key, Row>, db: string, dates: set<string>, alldumps: seq<string>, d: string)
    requires (db, d) in rows
    ensures (db, d) in Retouch(rows, db, dates, Withdrawn(alldumps))
    ensures Retouch(rows, db, dates, Withdrawn(alldumps))[(db, d)] ==
              if d in dates && d !in alldumps then rows[(db, d)].(canArchive := 0) else rows[(db, d)]
  {
    RetouchAt(rows, db, dates, Withdrawn(alldumps), d);
  }

  /**
   * `can_archive` after steps 2 and 3 for a row that entered them with
   * value `c` and was within both windows: a listed date no later than the
   * cutoff becomes archivable, an unlisted one stops being archivable, and
   * step 3 never undoes step 2.
   */
  function SettledCanArchive(c: Flag, d: string, alldumps: seq<string>, cutoff: string): Flag
  {
    if d in alldumps then (if c == 0 && NotAfter(d, cutoff) then 1 else c)
    else (if c == 1 then 0 else c)
  }

  /** The dates of `db` a registration can add to are the stored ones plus the listed ones. */
  lemma RegisteredDates(rows: map<Key, Row>, db: string, alldumps: seq<string>, stored: set<string>,
                        isDumpDate: string -> bool)
    ensures DatesOf(Register(rows, db, alldumps, stored, isDumpDate, Registered), db, AnyRow)
              <= DatesOf(rows, db, AnyRow) + Elems(alldumps)
  {
    var r1 := Register(rows, db, alldumps, stored, isDumpDate, Registered);
    RegisterFrame(rows, db, alldumps, stored, isDumpDate, Registered);
    forall d | d in DatesOf(r1, db, AnyRow)
      ensures d in DatesOf(rows, db, AnyRow) + Elems(alldumps)
    {
      var k :| k in r1 && k.0 == db && Matches(r1[k], AnyRow) && k.1 == d;
      if k in rows {
        assert d in DatesOf(rows, db, AnyRow);
      }
    }
  }

  /** Card of a union is at most the sum of the cards. */
  lemma UnionCard(a: set<string>, b: set<string>)
    ensures |a + b| <= |a| + |b|
  {
    assert a + b == a + (b - a);
    SubsetCard(b - a, b);
  }

  lemma ElemsCard(s: seq<string>)
    ensures |Elems(s)| <= |s|
    decreases |s|
  {
    if s != [] {
      var n := |s| - 1;
      ElemsOneMore(s, n);
      assert s[..n + 1] == s;
      ElemsCard(s[..n]);
      UnionCard(Elems(s[..n]), {s[n]});
    }
  }

  /** A database whose stored and listed dates together fit within the window still fits after registration. */
  lemma RegisteredFits(rows: map<Key, Row>, db: string, alldumps: seq<string>, stored: set<string>,
                       isDumpDate: string -> bool, limit: nat)
    requires |DatesOf(rows, db, AnyRow)| + |alldumps| <= limit
    ensures |DatesOf(Register(rows, db, alldumps, stored, isDumpDate, Registered), db, AnyRow)| <= limit
  {
    RegisteredDates(rows, db, alldumps, stored, isDumpDate);
    ElemsCard(alldumps);
    UnionCard(DatesOf(rows, db, AnyRow), Elems(alldumps));
    SubsetCard(DatesOf(Register(rows, db, alldumps, stored, isDumpDate, Registered), db, AnyRow),
               DatesOf(rows, db, AnyRow) + Elems(alldumps));
  }

  /**
   * For a database whose stored and listed dates together fit within the
   * window, a pass leaves every row of it that exists after registration
   * with `SettledCanArchive` of its `can_archive` after registration, and
   * registers every listed date that parses: so a dump registered in this
   * pass, old enough and listed, is already archivable when it ends.
   */
  lemma ReconcileDatabaseAt(rows: map<Key, Row>, db: string, alldumps: seq<string>, isDumpDate: string -> bool,
                            cutoff: string, limit: nat, d: string)
    requires |DatesOf(rows, db, AnyRow)| + |alldumps| <= limit
    requires (db, d) in rows || (d in alldumps && isDumpDate(d))
    ensures (db, d) in ReconcileDatabase(rows, db, alldumps, isDumpDate, cutoff, limit)
    ensures ReconcileDatabase(rows, db, alldumps, isDumpDate, cutoff, limit)[(db, d)].canArchive ==
              SettledCanArchive(if (db, d) in rows then rows[(db, d)].canArchive else 0, d, alldumps, cutoff)
  {
    var k := (db, d);
    var stored := Newest(DatesOf(rows, db, AnyRow), limit);
    var r1 := Register(rows, db, alldumps, stored, isDumpDate, Registered);
    var w2 := Newest(DatesOf(r1, db, NotArchivable), limit);
    var r2 := Retouch(r1, db, w2, Ripe(cutoff, alldumps));
    var w3 := Newest(DatesOf(r2, db, Archivable), limit);
    var r3 := Retouch(r2, db, w3, Withdrawn(alldumps));
    assert r3 == ReconcileDatabase(rows, db, alldumps, isDumpDate, cutoff, limit);
    RegisterFrame(rows, db, alldumps, stored, isDumpDate, Registered);
    if k !in rows {
      assert d !in stored;
    }
    assert k in r1;
    var c := if k in rows then rows[k].canArchive else 0;
    assert r1[k].canArchive == c;
    RegisteredFits(rows, db, alldumps, stored, isDumpDate, limit);
    SmallWikiFitsWindow(r1, db, NotArchivable, limit);
    RipeAt(r1, db, w2, cutoff, alldumps, d);
    RetouchKeepsDates(r1, db, w2, Ripe(cutoff, alldumps), db);
    SmallWikiFitsWindow(r2, db, Archivable, limit);
    WithdrawnAt(r2, db, w3, alldumps, d);
    if c == 0 {
      assert d in w2;
    } else if c == 1 {
      assert d !in w2;
      assert d in w3;
    }
  }

  // ---------------------------------------------------------------------
  // Upload selection, check and dispatch
  // ---------------------------------------------------------------------

  /**
   * `getFilesToUpload`: in resume mode, the files the item lacks, returned
   * only when that list is empty; every other path falls off the end of the
   * function and returns None.
   */
  method GetFilesToUpload(allfiles: seq<string>, remote: set<string>, resume: bool) returns (items: Option<seq<string>>)
    ensures items == if resume && AllRemote(allfiles, remote) then Some([]) else None
  {
    if resume {
      var missing := SelectMissing(allfiles, remote);
      if missing == [] {
        return Some(missing);
      }
    }
    return None;
  }

  /**
   * The selection as evidently intended: every expected file, or in resume
   * mode the ones the item lacks, in expected order.
   */
  method FilesToUpload(allfiles: seq<string>, remote: set<string>, resume: bool) returns (items: seq<string>)
    ensures items == if resume then Missing(allfiles, remote) else allfiles
    ensures forall x :: x in items <==> x in allfiles && (resume ==> x !in remote)
    ensures resume ==> (items == [] <==> AllRemote(allfiles, remote))
  {
    if resume {
      items := SelectMissing(allfiles, remote);
    } else {
      items := allfiles;
    }
  }

  /**
   * A fresh upload of a one-file dump: the selection as written gives None
   * where the intended one gives the file.
   */
  method FreshUploadLosesFiles() returns (asWritten: Option<seq<string>>, intended: seq<string>)
    ensures asWritten == None && intended == ["wikidata-20160104-all.json.gz"]
  {
    asWritten := GetFilesToUpload(["wikidata-20160104-all.json.gz"], {}, false);
    intended := FilesToUpload(["wikidata-20160104-all.json.gz"], {}, false);
  }

  /**
   * What the family reads from outside the catalog for one dump: the hrefs
   * of its directory index, the file list of its Internet Archive item, the
   * listing of the dump directory once `downloadFiles` has filled it, the
   * listing of a directory given as a path (None when it does not exist),
   * and whether the `n`-th upload request of the item succeeds.
   */
  datatype Origin = Origin(
    fileLinks: Key -> seq<string>,
    remote: Key -> set<string>,
    downloaded: Key -> set<string>,
    listing: string -> Option<set<string>>,
    accept: Key -> nat -> bool)

  /** `getFiles`: the dump's files, as its index page links them. */
  function Expected(o: Origin, k: Key): seq<string>
  {
    ExtractLinks(o.fileLinks(k))
  }

  /**
   * How `archive` as written ends. The selection it gets is Some([]) or
   * None. A given directory that does not exist makes `checkDumpDir` return
   * False before it reads the selection. Otherwise the selection is looped
   * over, which raises TypeError for None and passes for the empty list,
   * after which `archive` returns True before reaching the upload.
   */
  function ArchiveEnds(o: Origin, k: Key, path: Option<string>, resume: bool): Outcome
  {
    if path.Some? && o.listing(path.value).None? then Returns(false)
    else if resume && AllRemote(Expected(o, k), o.remote(k)) then Returns(true)
    else Raised
  }

  /**
   * `archive` as written: the selection goes to `downloadFiles` when no path
   * is given and then to `checkDumpDir`; the upload and the removal of the
   * dump directory are never reached.
   */
  method ArchiveAsWritten(o: Origin, k: Key, path: Option<string>, resume: bool) returns (outcome: Outcome)
    ensures outcome == ArchiveEnds(o, k, path, resume)
  {
    var items := GetFilesToUpload(Expected(o, k), o.remote(k), resume);
    if path.None? {
      // `downloadFiles` creates the dump directory, then loops over the selection
      if items.None? {
        return Raised;
      }
    } else if o.listing(path.value).None? {
      return Returns(false);
    } else if items.None? {
      // `checkDumpDir` loops over the selection
      return Raised;
    }
    // the selection is empty: `checkDumpDir` passes and the item is reported complete
    return Returns(true);
  }

  /** The outcome of the job `dispatch` runs, as written. */
  function JobEnds(o: Origin, job: Job, k: Key, path: Option<string>, resume: bool): Outcome
  {
    match job
    case ArchiveJob => ArchiveEnds(o, k, path, resume)
    case CheckJob => Returns(AllRemote(Expected(o, k), o.remote(k)))
    case UpdateJob => Returns(false)
  }

  /**
   * `dispatch` as written: claims unless in debug mode, runs the job, then
   * returns its outcome (debug mode) or marks the row with it. A job that
   * raises ends `dispatch` there, before any mark, so the claim stays.
   */
  method DispatchAsWritten(cat: Catalog<Key>, job: Job, k: Key, path: Option<string>, o: Origin,
                           resume: bool, debug: bool, host: string)
      returns (raised: bool, status: Option<bool>)
    modifies cat
    ensures raised <==> JobEnds(o, job, k, path, resume).Raised?
    ensures status == if debug && job != UpdateJob && !raised then Some(JobEnds(o, job, k, path, resume).value) else None
    ensures debug ==> cat.rows == old(cat.rows)
    ensures !debug ==> cat.rows == if k in old(cat.rows)
                                   then old(cat.rows)[k := Conclude(old(cat.rows)[k], job, JobEnds(o, job, k, path, resume), host)]
                                   else old(cat.rows)
  {
    if !debug {
      cat.ClaimItem(k, host);
    }
    if job == UpdateJob {
      return false, None;
    }
    var ok: bool;
    if job == ArchiveJob {
      var outcome := ArchiveAsWritten(o, k, path, resume);
      if outcome.Raised? {
        return true, None;
      }
      ok := outcome.value;
    } else {
      ok := Check(Expected(o, k), o.remote(k));
    }
    if debug {
      return false, Some(ok);
    }
    if job == ArchiveJob {
      if ok {
        cat.MarkArchived(k);
      } else {
        cat.MarkFailedArchive(k);
      }
    } else {
      if ok {
        cat.MarkChecked(k);
      } else {
        cat.MarkFailedCheck(k);
      }
    }
    return false, None;
  }

  /**
   * Continuous mode runs `archive` with `resume` off, so as written every
   * archive raises unless it was given a directory that does not exist. The
   * row `dispatch` claimed keeps the claim and `is_archived` "0": it leaves
   * the archive queue without being archived.
   */
  lemma ContinuousArchiveStrandsRow(rows: map<Key, Row>, k: Key, o: Origin, path: Option<string>, host: string)
    requires k in rows && Eligible(rows[k], WorkFilter(ArchiveJob))
    requires path.Some? ==> o.listing(path.value).Some?
    ensures ArchiveEnds(o, k, path, false) == Raised
    ensures var r := Conclude(rows[k], ArchiveJob, Raised, host);
            && r.claimedBy == Some(host) && r.isArchived == 0
            && ItemsLeft(rows[k := r], ArchiveJob) == ItemsLeft(rows, ArchiveJob) - 1
  {
    var r := Conclude(rows[k], ArchiveJob, Raised, host);
    RaisedRowIsStranded(rows[k], ArchiveJob, host, WorkFilter(ArchiveJob));
    LeavingShrinksCount(rows, k, r, WorkFilter(ArchiveJob));
  }

  /** The files the corrected selection uploads. */
  function Selection(o: Origin, k: Key, resume: bool): seq<string>
  {
    if resume then Missing(Expected(o, k), o.remote(k)) else Expected(o, k)
  }

  /** The directory `archive` checks: the dump directory `downloadFiles` fills, or the given path. */
  function WorkListing(o: Origin, k: Key, path: Option<string>): Option<set<string>>
  {
    if path.None? then Some(o.downloaded(k)) else o.listing(path.value)
  }

  /** The corrected `archive` succeeds iff the directory holds the selection and every upload of it succeeds. */
  predicate ArchiveSucceeds(o: Origin, k: Key, path: Option<string>, resume: bool)
  {
    && DirComplete(WorkListing(o, k, path), Selection(o, k, resume))
    && forall i :: 0 <= i < |Selection(o, k, resume)| ==> o.accept(k)(i)
  }

  /**
   * `archive` as evidently intended, with the corrected selection: False for
   * a directory that lacks a selected file, True at once when nothing is left
   * to upload, otherwise the upload run of the selection, the first request
   * with the item metadata; the dump directory is removed after a complete
   * upload into it, and True is returned there too.
   */
  method Archive(o: Origin, k: Key, path: Option<string>, resume: bool) returns (ok: bool, sent: seq<Upload>, removed: bool)
    ensures ok == ArchiveSucceeds(o, k, path, resume)
    ensures !DirComplete(WorkListing(o, k, path), Selection(o, k, resume)) ==> sent == []
    ensures DirComplete(WorkListing(o, k, path), Selection(o, k, resume)) ==>
              UploadRun(Selection(o, k, resume), o.accept(k), ok, sent)
    ensures removed <==> ok && path.None? && Selection(o, k, resume) != []
  {
    var items := FilesToUpload(Expected(o, k), o.remote(k), resume);
    var complete := CheckDumpDir(WorkListing(o, k, path), items);
    if !complete {
      return false, [], false;
    }
    if items == [] {
      return true, [], false;
    }
    ok, sent := UploadAll(items, o.accept(k));
    removed := ok && path.None?;
  }

  /**
   * The correction changes only the runs that raise: wherever `archive` as
   * written returns a value, the corrected one returns the same value.
   */
  lemma ArchiveAgreesWhereItReturns(o: Origin, k: Key, path: Option<string>, resume: bool)
    requires ArchiveEnds(o, k, path, resume).Returns?
    ensures ArchiveSucceeds(o, k, path, resume) == ArchiveEnds(o, k, path, resume).value
  {
    if !(path.Some? && o.listing(path.value).None?) {
      assert Selection(o, k, resume) == [];
    }
  }

  /** Whether the job the corrected `dispatch` runs returns a true value. */
  predicate JobSucceeds(o: Origin, job: Job, k: Key, path: Option<string>, resume: bool)
  {
    match job
    case ArchiveJob => ArchiveSucceeds(o, k, path, resume)
    case CheckJob => AllRemote(Expected(o, k), o.remote(k))
    case UpdateJob => false
  }

  /**
   * `dispatch` with the corrected `archive`: claims unless in debug mode,
   * runs the job, then returns its outcome (debug mode) or marks the row
   * with it and releases the claim.
   */
  method Dispatch(cat: Catalog<Key>, job: Job, k: Key, path: Option<string>, o: Origin,
                  resume: bool, debug: bool, host: string)
      returns (status: Option<bool>)
    modifies cat
    ensures debug ==> cat.rows == old(cat.rows)
    ensures status == if debug && job != UpdateJob then Some(JobSucceeds(o, job, k, path, resume)) else None
    ensures !debug ==> cat.rows == if k in old(cat.rows)
                                   then old(cat.rows)[k := Settle(old(cat.rows)[k], job, JobSucceeds(o, job, k, path, resume), host)]
                                   else old(cat.rows)
  {
    if !debug {
      cat.ClaimItem(k, host);
    }
    if job == UpdateJob {
      return None;
    }
    var ok: bool;
    if job == ArchiveJob {
      var sent, removed;
      ok, sent, removed := Archive(o, k, path, resume);
    } else {
      ok := Check(Expected(o, k), o.remote(k));
    }
    if debug {
      return Some(ok);
    }
    if job == ArchiveJob {
      if ok {
        cat.MarkArchived(k);
      } else {
        cat.MarkFailedArchive(k);
      }
    } else {
      if ok {
        cat.MarkChecked(k);
      } else {
        cat.MarkFailedCheck(k);
      }
    }
    return None;
  }

  /**
   * With the correction, a non-debug archive or check of an eligible row
   * takes it out of the job's queue by marking it: the count drops by one
   * and the claim is released.
   */
  lemma DispatchShrinksBacklog(rows: map<Key, Row>, job: Job, k: Key, ok: bool, host: string)
    requires job != UpdateJob
    requires k in rows && Eligible(rows[k], WorkFilter(job))
    ensures Settle(rows[k], job, ok, host).claimedBy.None?
    ensures ItemsLeft(rows[k := Settle(rows[k], job, ok, host)], job) == ItemsLeft(rows, job) - 1
  {
    SettleLeavesQueue(rows[k], job, ok, host, WorkFilter(job));
    LeavingShrinksCount(rows, k, Settle(rows[k], job, ok, host), WorkFilter(job));
  }
}
