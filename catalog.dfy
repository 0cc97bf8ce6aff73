/**
 * The catalog table each dataset family keeps: one row per (wiki, dump date)
 * with the lifecycle flags, and the single-row statements the families run
 * against it (`addNewItem`, `updateProgress`, `updateCanArchive`, the four
 * `mark*` and `claimItem`), modelled as a class whose one field is the table.
 */
module CatalogStore {
  import opened DateOrder

  datatype Option<T> = None | Some(value: T)

  /** A lifecycle flag as the table stores it: "0", "1" or "2". */
  type Flag = n: nat | n <= 2

  /** A dump's generation status at the origin: "unknown", "progress", "done" or "error". */
  datatype Progress = Unknown | InProgress | Done | Error

  /**
   * One catalog row. `progress` is NULL (None) in the families that never
   * set it; `claimedBy` holds the hostname of the worker that claimed the row.
   */
  datatype Row = Row(
    progress: Option<Progress>,
    canArchive: Flag,
    isArchived: Flag,
    isChecked: Flag,
    claimedBy: Option<string>,
    comments: Option<string>)

  /** The row `addNewItem` inserts: flags "0", `claimed_by` and `comments` NULL. */
  function NewRow(progress: Option<Progress>): Row
  {
    Row(progress, 0, 0, 0, None, None)
  }

  predicate Unclaimed(r: Row)
  {
    r.claimedBy.None?
  }

  /** The jobs a family module accepts. */
  datatype Job = ArchiveJob | CheckJob | UpdateJob

  /** The main table's key: the wiki's database name and the dump date. */
  type Key = (string, string)

  /**
   * The column conditions `getStoredDumps` adds to its query; None stands for
   * the argument value "all", which adds no condition.
   */
  datatype Filter = Filter(progress: Option<Progress>, canArchive: Option<Flag>, isArchived: Option<Flag>, isChecked: Option<Flag>)

  const AnyRow: Filter := Filter(None, None, None, None)

  predicate Matches(r: Row, f: Filter)
  {
    && (f.progress.Some? ==> r.progress == f.progress)
    && (f.canArchive.Some? ==> r.canArchive == f.canArchive.value)
    && (f.isArchived.Some? ==> r.isArchived == f.isArchived.value)
    && (f.isChecked.Some? ==> r.isChecked == f.isChecked.value)
  }

  /** The catalog table of one dataset family, keyed by `K`. */
  class Catalog<K(==)> {
    var rows: map<K, Row>

    constructor (initial: map<K, Row>)
      ensures rows == initial
    {
      rows := initial;
    }

    /** INSERT of a new row; the key is unique, so inserting an existing key fails and changes nothing. */
    method Insert(k: K, row: Row) returns (ok: bool)
      modifies this
      ensures ok <==> k !in old(rows)
      ensures rows == if ok then old(rows)[k := row] else old(rows)
    {
      ok := k !in rows;
      if ok {
        rows := rows[k := row];
      }
    }

    /** `updateProgress`: sets `progress` on the row with key `k`, if there is one. */
    method UpdateProgress(k: K, p: Progress)
      modifies this
      ensures k in old(rows) ==> rows == old(rows)[k := old(rows)[k].(progress := Some(p))]
      ensures k !in old(rows) ==> rows == old(rows)
    {
      if k in rows {
        rows := rows[k := rows[k].(progress := Some(p))];
      }
    }

    /** `updateCanArchive`: sets `can_archive` on the row with key `k`, if there is one. */
    method UpdateCanArchive(k: K, f: Flag)
      modifies this
      ensures k in old(rows) ==> rows == old(rows)[k := old(rows)[k].(canArchive := f)]
      ensures k !in old(rows) ==> rows == old(rows)
    {
      if k in rows {
        rows := rows[k := rows[k].(canArchive := f)];
      }
    }

    /** `markArchived`: `is_archived` becomes "1" and the claim is released. */
    method MarkArchived(k: K)
      modifies this
      ensures k in old(rows) ==> rows == old(rows)[k := old(rows)[k].(isArchived := 1, claimedBy := None)]
      ensures k !in old(rows) ==> rows == old(rows)
    {
      if k in rows {
        rows := rows[k := rows[k].(isArchived := 1, claimedBy := None)];
      }
    }

    /** `markChecked`: `is_checked` becomes "1" and the claim is released. */
    method MarkChecked(k: K)
      modifies this
      ensures k in old(rows) ==> rows == old(rows)[k := old(rows)[k].(isChecked := 1, claimedBy := None)]
      ensures k !in old(rows) ==> rows == old(rows)
    {
      if k in rows {
        rows := rows[k := rows[k].(isChecked := 1, claimedBy := None)];
      }
    }

    /** `markFailedArchive`: `is_archived` becomes "2" and the claim is released. */
    method MarkFailedArchive(k: K)
      modifies this
      ensures k in old(rows) ==> rows == old(rows)[k := old(rows)[k].(isArchived := 2, claimedBy := None)]
      ensures k !in old(rows) ==> rows == old(rows)
    {
      if k in rows {
        rows := rows[k := rows[k].(isArchived := 2, claimedBy := None)];
      }
    }

    /** `markFailedCheck`: `is_checked` becomes "2" and the claim is released. */
    method MarkFailedCheck(k: K)
      modifies this
      ensures k in old(rows) ==> rows == old(rows)[k := old(rows)[k].(isChecked := 2, claimedBy := None)]
      ensures k !in old(rows) ==> rows == old(rows)
    {
      if k in rows {
        rows := rows[k := rows[k].(isChecked := 2, claimedBy := None)];
      }
    }

    /**
     * `claimItem`: writes the hostname into `claimed_by`. The statement has
     * no `claimed_by IS NULL` condition, so it overwrites whatever claim the
     * row already had.
     */
    method ClaimItem(k: K, host: string)
      modifies this
      ensures k in old(rows) ==> rows == old(rows)[k := old(rows)[k].(claimedBy := Some(host))]
      ensures k !in old(rows) ==> rows == old(rows)
    {
      if k in rows {
        rows := rows[k := rows[k].(claimedBy := Some(host))];
      }
    }
  }

  /**
   * The WHERE clause of the work queries: `claimed_by IS NULL` and the
   * filter's column conditions.
   */
  predicate Eligible(r: Row, f: Filter)
  {
    Unclaimed(r) && Matches(r, f)
  }

  /** Every column condition of `g` is also a condition of `f`, so `f` selects no more rows than `g`. */
  predicate Narrower(f: Filter, g: Filter)
  {
    && (g.progress.Some? ==> f.progress == g.progress)
    && (g.canArchive.Some? ==> f.canArchive == g.canArchive)
    && (g.isArchived.Some? ==> f.isArchived == g.isArchived)
    && (g.isChecked.Some? ==> f.isChecked == g.isChecked)
  }

  /** The keys of the rows a work query selects. */
  function KeysWhere<K>(rows: map<K, Row>, f: Filter): set<K>
  {
    set k | k in rows && Eligible(rows[k], f)
  }

  /** `SELECT COUNT(*)` with the work query's WHERE clause. */
  function CountWhere<K>(rows: map<K, Row>, f: Filter): nat
  {
    |KeysWhere(rows, f)|
  }

  /**
   * `ORDER BY RAND() LIMIT 1` with the work query's WHERE clause: any one
   * key whose row it selects, or None when it selects none.
   */
  method PickWhere<K>(rows: map<K, Row>, f: Filter) returns (pick: Option<K>)
    ensures pick.Some? ==> pick.value in rows && Eligible(rows[pick.value], f)
    ensures pick.None? <==> KeysWhere(rows, f) == {}
  {
    if k :| k in rows && Eligible(rows[k], f) {
      assert k in KeysWhere(rows, f);
      pick := Some(k);
    } else {
      pick := None;
    }
  }

  /** A positive count under `f` means a query under any wider filter `g` has a row to pick. */
  lemma CountedRowIsPickable<K>(rows: map<K, Row>, f: Filter, g: Filter)
    requires CountWhere(rows, f) > 0 && Narrower(f, g)
    ensures KeysWhere(rows, f) <= KeysWhere(rows, g)
    ensures KeysWhere(rows, g) != {}
  {
    var k :| k in KeysWhere(rows, f);
  }

  /**
   * Writing a row that the query no longer selects takes exactly that row
   * out of the count.
   */
  lemma LeavingShrinksCount<K>(rows: map<K, Row>, k: K, row: Row, f: Filter)
    requires k in rows && Eligible(rows[k], f) && !Eligible(row, f)
    ensures KeysWhere(rows[k := row], f) == KeysWhere(rows, f) - {k}
    ensures CountWhere(rows[k := row], f) == CountWhere(rows, f) - 1
  {
    assert KeysWhere(rows[k := row], f) == KeysWhere(rows, f) - {k};
  }

  /**
   * The row after a non-debug `dispatch`, the same in every family: archive
   * and check set their flag to "1" on success and "2" on failure and
   * release the claim (`mark*`); the update job is not run, so the row keeps
   * the claim `dispatch` wrote.
   */
  function Settle(row: Row, job: Job, ok: bool, host: string): (r: Row)
    ensures job != UpdateJob ==>
              && r.claimedBy.None?
              && r.progress == row.progress && r.canArchive == row.canArchive && r.comments == row.comments
    ensures job == ArchiveJob ==> r.isArchived == (if ok then 1 else 2) && r.isChecked == row.isChecked
    ensures job == CheckJob ==> r.isChecked == (if ok then 1 else 2) && r.isArchived == row.isArchived
    ensures job == UpdateJob ==> r.claimedBy == Some(host) && r.isArchived == row.isArchived && r.isChecked == row.isChecked
  {
    match job
    case ArchiveJob => row.(isArchived := if ok then 1 else 2, claimedBy := None)
    case CheckJob => row.(isChecked := if ok then 1 else 2, claimedBy := None)
    case UpdateJob => row.(claimedBy := Some(host))
  }

  /**
   * A settled row leaves every work query that waits on the job's flag
   * being "0": whatever the outcome, the flag is "1" or "2" afterwards.
   */
  lemma SettleLeavesQueue(row: Row, job: Job, ok: bool, host: string, f: Filter)
    requires job == ArchiveJob ==> f.isArchived == Some(0)
    requires job == CheckJob ==> f.isChecked == Some(0)
    requires job != UpdateJob
    ensures !Eligible(Settle(row, job, ok, host), f)
  {
  }

  /** How a job's call ends: it raises an exception, or it returns a truth value. */
  datatype Outcome = Raised | Returns(value: bool)

  /**
   * The row after a non-debug `dispatch` whose job call may raise. A raised
   * job never reaches `mark*`, so the row keeps the claim `dispatch` wrote
   * and every flag it had; a job that returns settles the row.
   */
  function Conclude(row: Row, job: Job, outcome: Outcome, host: string): (r: Row)
    ensures outcome.Raised? ==>
              && r.claimedBy == Some(host)
              && r.progress == row.progress && r.canArchive == row.canArchive
              && r.isArchived == row.isArchived && r.isChecked == row.isChecked
    ensures outcome.Returns? ==> r == Settle(row, job, outcome.value, host)
  {
    match outcome
    case Raised => row.(claimedBy := Some(host))
    case Returns(ok) => Settle(row, job, ok, host)
  }

  /**
   * A row whose job raised is stranded: every work query wants
   * `claimed_by IS NULL`, so it has left all of them, while its columns
   * still meet exactly the conditions they met before, the job's flag
   * still "0" included. Nothing but a manual reset brings it back.
   */
  lemma RaisedRowIsStranded(row: Row, job: Job, host: string, f: Filter)
    ensures !Eligible(Conclude(row, job, Raised, host), f)
    ensures Matches(Conclude(row, job, Raised, host), f) == Matches(row, f)
  {
  }

  /** The dates of wiki `db`'s rows that satisfy filter `f`. */
  function DatesOf(rows: map<Key, Row>, db: string, f: Filter): set<string>
  {
    set k | k in rows && k.0 == db && Matches(rows[k], f) :: k.1
  }

  /** The members of a list, as a set. */
  function Elems(s: seq<string>): set<string>
  {
    set x | x in s
  }

  /** A loop over a list has seen one more member after each round. */
  lemma ElemsOneMore(s: seq<string>, i: nat)
    requires i < |s|
    ensures Elems(s[..i + 1]) == Elems(s[..i]) + {s[i]}
  {
    assert s[..i + 1] == s[..i] + [s[i]];
  }

  /**
   * `getStoredDumps(db, ...)`: the dates of `db`'s rows matching the filter,
   * `ORDER BY dumpdate DESC LIMIT limit`.
   */
  method GetStoredDumps(cat: Catalog<Key>, db: string, f: Filter, limit: nat) returns (dumps: seq<string>)
    ensures forall i, j :: 0 <= i < j < |dumps| ==> Before(dumps[j], dumps[i])
    ensures Elems(dumps) == Newest(DatesOf(cat.rows, db, f), limit)
  {
    dumps := NewestFirst(DatesOf(cat.rows, db, f), limit);
  }

  /** One column write the reconcilers make: `updateProgress` or `updateCanArchive`. */
  datatype Edit = SetProgress(p: Progress) | SetCanArchive(f: Flag)

  function Apply(r: Row, e: Edit): Row
  {
    match e
    case SetProgress(p) => r.(progress := Some(p))
    case SetCanArchive(f) => r.(canArchive := f)
  }

  /**
   * One reconciler pass over a set of `db`'s dates: each date whose check
   * calls for an edit has that edit applied to its row, if the row exists.
   */
  ghost function Retouch(rows: map<Key, Row>, db: string, dates: set<string>, edit: string -> Option<Edit>): map<Key, Row>
  {
    map k | k in rows :: if k.0 == db && k.1 in dates && edit(k.1).Some? then Apply(rows[k], edit(k.1).value) else rows[k]
  }

  /** A single-row write of an optional edit: nothing when there is no edit or no such row. */
  function Touch(rows: map<Key, Row>, k: Key, e: Option<Edit>): map<Key, Row>
  {
    if k in rows && e.Some? then rows[k := Apply(rows[k], e.value)] else rows
  }

  /**
   * Visiting one more date is one more single-row write (or none); a date
   * visited twice writes the same value again.
   */
  lemma RetouchOneMore(rows: map<Key, Row>, db: string, dates: set<string>, d: string, edit: string -> Option<Edit>)
    ensures Retouch(rows, db, dates + {d}, edit) == Touch(Retouch(rows, db, dates, edit), (db, d), edit(d))
  {
  }

  /** The reconciler loop over a list of dates, one single-row write per date, in list order. */
  ghost function RetouchEach(rows: map<Key, Row>, db: string, dates: seq<string>, edit: string -> Option<Edit>): map<Key, Row>
    decreases |dates|
  {
    if dates == [] then rows
    else Touch(RetouchEach(rows, db, dates[..|dates| - 1], edit), (db, dates[|dates| - 1]), edit(dates[|dates| - 1]))
  }

  /** The loop's result depends only on which dates the list holds, not on their order or repetition. */
  lemma {:induction false} RetouchEachIsRetouch(rows: map<Key, Row>, db: string, dates: seq<string>, edit: string -> Option<Edit>)
    ensures RetouchEach(rows, db, dates, edit) == Retouch(rows, db, Elems(dates), edit)
    decreases |dates|
  {
    if dates == [] {
      assert Retouch(rows, db, {}, edit) == rows;
    } else {
      var n := |dates| - 1;
      RetouchEachIsRetouch(rows, db, dates[..n], edit);
      RetouchOneMore(rows, db, Elems(dates[..n]), dates[n], edit);
      ElemsOneMore(dates, n);
      assert dates[..n + 1] == dates;
    }
  }

  /**
   * The registration loop's result: every listed date that is not in
   * `stored` and that `admit` accepts is inserted with the row `mkRow(date)`;
   * an insert whose key already exists fails, so existing rows stay as they are.
   */
  ghost function Register(rows: map<Key, Row>, db: string, dates: seq<string>, stored: set<string>,
                          admit: string -> bool, mkRow: string -> Row): map<Key, Row>
  {
    map k | k in rows.Keys + (set d | d in dates && d !in stored && admit(d) :: (db, d))
      :: if k in rows then rows[k] else mkRow(k.1)
  }

  /**
   * Visiting one more listed date inserts its row exactly when the date is
   * not in `stored`, `admit` accepts it and its key is still new.
   */
  lemma RegisterOneMore(rows: map<Key, Row>, db: string, dates: seq<string>, d: string, stored: set<string>,
                        admit: string -> bool, mkRow: string -> Row)
    ensures var before := Register(rows, db, dates, stored, admit, mkRow);
            Register(rows, db, dates + [d], stored, admit, mkRow)
            == if d !in stored && admit(d) && (db, d) !in before then before[(db, d) := mkRow(d)] else before
  {
    var before := Register(rows, db, dates, stored, admit, mkRow);
    var after := Register(rows, db, dates + [d], stored, admit, mkRow);
    assert forall x :: x in dates + [d] <==> x in dates || x == d;
    if d !in stored && admit(d) && (db, d) !in before {
      assert after.Keys == before.Keys + {(db, d)};
    } else {
      assert after.Keys == before.Keys;
    }
  }

  /** The registration loop over a list of dates, in list order. */
  ghost function RegisterEach(rows: map<Key, Row>, db: string, dates: seq<string>, stored: set<string>,
                              admit: string -> bool, mkRow: string -> Row): map<Key, Row>
    decreases |dates|
  {
    if dates == [] then rows
    else
      var before := RegisterEach(rows, db, dates[..|dates| - 1], stored, admit, mkRow);
      var d := dates[|dates| - 1];
      if d !in stored && admit(d) && (db, d) !in before then before[(db, d) := mkRow(d)] else before
  }

  lemma {:induction false} RegisterEachIsRegister(rows: map<Key, Row>, db: string, dates: seq<string>, stored: set<string>,
                                                  admit: string -> bool, mkRow: string -> Row)
    ensures RegisterEach(rows, db, dates, stored, admit, mkRow) == Register(rows, db, dates, stored, admit, mkRow)
    decreases |dates|
  {
    if dates == [] {
      assert Register(rows, db, [], stored, admit, mkRow) == rows;
    } else {
      var n := |dates| - 1;
      RegisterEachIsRegister(rows, db, dates[..n], stored, admit, mkRow);
      RegisterOneMore(rows, db, dates[..n], dates[n], stored, admit, mkRow);
      assert dates[..n] + [dates[n]] == dates;
    }
  }

  /**
   * A reconciler pass keeps the key set, writes only `progress` and
   * `can_archive`, and writes a row only when its date is in the pass.
   */
  lemma RetouchFrame(rows: map<Key, Row>, db: string, dates: set<string>, edit: string -> Option<Edit>)
    ensures Retouch(rows, db, dates, edit).Keys == rows.Keys
    ensures forall k :: k in rows ==>
              && Retouch(rows, db, dates, edit)[k].isArchived == rows[k].isArchived
              && Retouch(rows, db, dates, edit)[k].isChecked == rows[k].isChecked
              && Retouch(rows, db, dates, edit)[k].claimedBy == rows[k].claimedBy
              && Retouch(rows, db, dates, edit)[k].comments == rows[k].comments
    ensures forall k :: k in rows && (k.0 != db || k.1 !in dates) ==> Retouch(rows, db, dates, edit)[k] == rows[k]
  {
  }

  /**
   * Registration never changes or removes a row, and adds a row for exactly
   * the admitted dates of `dates` that are neither stored nor present.
   */
  lemma RegisterFrame(rows: map<Key, Row>, db: string, dates: seq<string>, stored: set<string>,
                      admit: string -> bool, mkRow: string -> Row)
    ensures rows.Keys <= Register(rows, db, dates, stored, admit, mkRow).Keys
    ensures forall k :: k in rows ==> Register(rows, db, dates, stored, admit, mkRow)[k] == rows[k]
    ensures forall k :: k in Register(rows, db, dates, stored, admit, mkRow) && k !in rows ==>
              && k.0 == db && k.1 in dates && k.1 !in stored && admit(k.1)
              && Register(rows, db, dates, stored, admit, mkRow)[k] == mkRow(k.1)
    ensures forall d :: d in dates && d !in stored && admit(d) ==> (db, d) in Register(rows, db, dates, stored, admit, mkRow)
  {
  }

  /** The row a reconciler pass leaves at one existing key. */
  lemma RetouchAt(rows: map<Key, Row>, db: string, dates: set<string>, edit: string -> Option<Edit>, d: string)
    requires (db, d) in rows
    ensures (db, d) in Retouch(rows, db, dates, edit)
    ensures Retouch(rows, db, dates, edit)[(db, d)] ==
              if d in dates && edit(d).Some? then Apply(rows[(db, d)], edit(d).value) else rows[(db, d)]
  {
  }

  /** When a wiki has at most `limit` rows, every date list `getStoredDumps` reads for it is complete. */
  lemma SmallWikiFitsWindow(rows: map<Key, Row>, db: string, f: Filter, limit: nat)
    requires |DatesOf(rows, db, AnyRow)| <= limit
    ensures Newest(DatesOf(rows, db, f), limit) == DatesOf(rows, db, f)
  {
    assert DatesOf(rows, db, f) <= DatesOf(rows, db, AnyRow);
    SubsetCard(DatesOf(rows, db, f), DatesOf(rows, db, AnyRow));
    NewestOfSmallSet(DatesOf(rows, db, f), limit);
  }

  /** A reconciler pass keeps the set of dates each wiki has. */
  lemma RetouchKeepsDates(rows: map<Key, Row>, db: string, dates: set<string>, edit: string -> Option<Edit>, x: string)
    ensures DatesOf(Retouch(rows, db, dates, edit), x, AnyRow) == DatesOf(rows, x, AnyRow)
  {
    RetouchFrame(rows, db, dates, edit);
  }
}
