/**
 * The decisions every family makes about files, over what it has scraped or
 * listed: which directory names are dump dates, whether a local dump
 * directory holds every expected file, whether the Internet Archive item
 * holds every expected file, which files a resumed upload still has to
 * send, and the upload loop that sends them.
 */
module SourceInspector {
  import opened DateOrder
  import opened CatalogStore

  /** The names of a listing that parse as `%Y%m%d` dates, in listing order. */
  function DateEntries(names: seq<string>, isDumpDate: string -> bool): (r: seq<string>)
    ensures forall x :: x in r <==> x in names && isDumpDate(x)
    ensures |r| <= |names|
  {
    if names == [] then []
    else
      var last := names[|names| - 1];
      assert names == names[..|names| - 1] + [last];
      DateEntries(names[..|names| - 1], isDumpDate) + (if isDumpDate(last) then [last] else [])
  }

  /** `getAllDumps` after the scrape: the date names of a wiki's dump index, sorted. */
  function AllDumps(names: seq<string>, isDumpDate: string -> bool): (r: seq<string>)
    ensures Ascending(r)
    ensures forall x :: x in r <==> x in names && isDumpDate(x)
  {
    var kept := DateEntries(names, isDumpDate);
    var r := SortAscending(kept);
    assert forall x :: x in r <==> x in multiset(kept);
    r
  }

  /** `getAllDumps`: keeps each linked name that parses as a date, then sorts. */
  method GetAllDumps(names: seq<string>, isDumpDate: string -> bool) returns (dumps: seq<string>)
    ensures dumps == AllDumps(names, isDumpDate)
  {
    var kept: seq<string> := [];
    var i := 0;
    while i < |names|
      invariant 0 <= i <= |names|
      invariant kept == DateEntries(names[..i], isDumpDate)
    {
      assert names[..i + 1][..i] == names[..i];
      if isDumpDate(names[i]) {
        kept := kept + [names[i]];
      }
      i := i + 1;
    }
    assert names[..i] == names;
    dumps := SortAscending(kept);
  }

  /** The files every dump has besides those its index page links. */
  const Additional: seq<string> := ["dumpruninfo.txt", "status.html"]

  /** `getDumpFiles` after the scrape: the linked files and the additional ones, sorted. */
  function DumpFiles(scraped: seq<string>): (r: seq<string>)
    ensures Ascending(r)
    ensures |r| == |scraped| + 2
    ensures forall x :: x in r <==> x in scraped || x in Additional
  {
    var all := scraped + Additional;
    var r := SortAscending(all);
    assert forall x :: x in r <==> x in multiset(all);
    r
  }

  /**
   * A local dump directory is complete: it exists (its listing is not None)
   * and lists every expected file.
   */
  predicate DirComplete(listing: Option<set<string>>, expected: seq<string>)
  {
    listing.Some? && forall f :: f in expected ==> f in listing.value
  }

  /**
   * `checkDumpDir`: False when the directory is missing, False at the first
   * expected file it does not list, True otherwise.
   */
  method CheckDumpDir(listing: Option<set<string>>, expected: seq<string>) returns (ok: bool)
    ensures ok <==> DirComplete(listing, expected)
  {
    if listing.None? {
      return false;
    }
    var files := listing.value;
    for i := 0 to |expected|
      invariant forall j :: 0 <= j < i ==> expected[j] in files
    {
      if expected[i] !in files {
        return false;
      }
    }
    return true;
  }

  /** Every expected file is in the Internet Archive item's file list. */
  predicate AllRemote(expected: seq<string>, remote: set<string>)
  {
    forall f :: f in expected ==> f in remote
  }

  /**
   * `check`: walks the expected files and clears `complete` for each one the
   * item lacks. Extra files in the item do not matter: it is a subset test.
   */
  method Check(expected: seq<string>, remote: set<string>) returns (complete: bool)
    ensures complete <==> AllRemote(expected, remote)
  {
    complete := true;
    for i := 0 to |expected|
      invariant complete <==> forall j :: 0 <= j < i ==> expected[j] in remote
    {
      if expected[i] !in remote {
        complete := false;
      }
    }
  }

  /** The expected files the item lacks, in expected order: what a resumed upload sends. */
  function Missing(expected: seq<string>, remote: set<string>): (r: seq<string>)
    ensures forall x :: x in r <==> x in expected && x !in remote
    ensures r == [] <==> AllRemote(expected, remote)
    ensures |r| <= |expected|
  {
    if expected == [] then []
    else
      var last := expected[|expected| - 1];
      assert expected == expected[..|expected| - 1] + [last];
      Missing(expected[..|expected| - 1], remote) + (if last in remote then [] else [last])
  }

  /** The listed names that are present in `files`, in listed order. */
  function PresentIn(names: seq<string>, files: set<string>): (r: seq<string>)
    ensures forall x :: x in r <==> x in names && x in files
    ensures |r| <= |names|
  {
    if names == [] then []
    else
      var last := names[|names| - 1];
      assert names == names[..|names| - 1] + [last];
      PresentIn(names[..|names| - 1], files) + (if last in files then [last] else [])
  }

  /** The resume loop: appends each expected file that the item's file list lacks. */
  method SelectMissing(expected: seq<string>, remote: set<string>) returns (items: seq<string>)
    ensures items == Missing(expected, remote)
  {
    items := [];
    var i := 0;
    while i < |expected|
      invariant 0 <= i <= |expected|
      invariant items == Missing(expected[..i], remote)
    {
      assert expected[..i + 1][..i] == expected[..i];
      if expected[i] !in remote {
        items := items + [expected[i]];
      }
      i := i + 1;
    }
    assert expected[..i] == expected;
  }

  /** One upload request: the file and whether it carries the item metadata and size hint. */
  datatype Upload = Upload(file: string, withMetadata: bool)

  /**
   * The run of the upload loop over `items`, where attempt `n` succeeds iff
   * `accept(n)`: the files go out in order, only the first with metadata,
   * and the loop stops at the first failed attempt, which makes the result False.
   */
  predicate UploadRun(items: seq<string>, accept: nat -> bool, ok: bool, sent: seq<Upload>)
  {
    && |sent| <= |items|
    && (forall i :: 0 <= i < |sent| ==> sent[i] == Upload(items[i], i == 0))
    && (forall i :: 0 <= i < |sent| - 1 ==> accept(i))
    && (ok ==> |sent| == |items| && forall i :: 0 <= i < |items| ==> accept(i))
    && (!ok ==> 0 < |sent| && !accept(|sent| - 1))
  }

  /** The upload loop of `archive`, with `count` counting successful uploads. */
  method UploadAll(items: seq<string>, accept: nat -> bool) returns (ok: bool, sent: seq<Upload>)
    ensures UploadRun(items, accept, ok, sent)
    ensures ok <==> forall i :: 0 <= i < |items| ==> accept(i)
  {
    var count := 0;
    sent := [];
    while count < |items|
      invariant 0 <= count <= |items|
      invariant |sent| == count
      invariant forall i :: 0 <= i < count ==> sent[i] == Upload(items[i], i == 0) && accept(i)
    {
      var upload := accept(count);
      sent := sent + [Upload(items[count], count == 0)];
      if !upload {
        return false, sent;
      }
      count := count + 1;
    }
    return true, sent;
  }

  /** An upload run is determined by the items and the outcomes: there is exactly one. */
  lemma UploadRunUnique(items: seq<string>, accept: nat -> bool, ok1: bool, sent1: seq<Upload>, ok2: bool, sent2: seq<Upload>)
    requires UploadRun(items, accept, ok1, sent1) && UploadRun(items, accept, ok2, sent2)
    ensures ok1 == ok2 && sent1 == sent2
  {
    if |sent1| != |sent2| {
      assert false;
    }
  }
}
