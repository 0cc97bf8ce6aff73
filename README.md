# Dumps archiver: a Dafny model of its catalog-driven state machine

Hydriz/Dumps copies Wikimedia dump sets to the Internet Archive. Each dataset
family keeps a catalog table in SQL with one row per dump: the wiki's
database name (none for media counts), the dump date, the generation status
(`progress`), and three lifecycle flags (`can_archive`, `is_archived`,
`is_checked`, each "0", "1" or "2"). The row also holds the hostname that
claimed it (`claimed_by`). An `update` job reconciles the table with what
the dumps server lists. The `archive` and `check` jobs pick unclaimed
eligible rows, claim them, run, and record the outcome with a `mark*`
statement, which releases the claim.

The model has seven modules:

- `DateOrder` (date_order.dfy): Python's string order on `%Y%m%d` dates;
  `sorted` as an insertion sort; and the `ORDER BY dumpdate DESC LIMIT n`
  window as a set (`Newest`) and as a selection method (`NewestFirst`).
- `CatalogStore` (catalog.dfy): the row, the query filters, and the
  single-row statements. The statements are methods of a class `Catalog`
  whose one field is the table, a map from key to row. The module also
  holds the generic per-date passes that `update` loops perform (`Retouch`,
  `Register`) with their recursive loop-invariant forms.
- `SourceInspector` (inspect.dfy): the file decisions shared by the
  families: dump-date names, the expected file list, `checkDumpDir`,
  `check`, the resume selection, and the upload loop.
- `MainDumps` (main_dumps.dfy): `modules/dumps.py`, with its status tally,
  queries, `archive`, `dispatch`, five-step `update` and `execute`.
- `Wikidata` (wikidata.dfy): `modules/wikidata.py`, with its link clean-up,
  queries and three-step `update`. Its `getFilesToUpload`, `archive` and
  `dispatch` appear both as written (the selection is None on most paths,
  so `archive` raises and the claimed row is stranded) and as intended.
- `Mediacounts` (mediacounts.dfy): `modules/mediacounts.py`, with its
  queries and debug-aware claim. Its `dispatch` appears as written (`getFiles`
  raises, so archive and check never return) and with a corrected
  `getFiles`, which also gives `archive`. Its daily `update` appears both as
  written and as intended.
- `LegacyDumps` (legacy_dumps.dfy): the older `dumps.py` script, with its
  own tally, a `check` that marks rows, and a three-step `update`.

The outside world is a value the methods take. It holds the dump index
listings, the `dumpruninfo.txt` job statuses, the scraped file names, the
local directory listings (None for a missing directory), the Internet Archive
item's file list, and the outcome of each upload request. The world is fixed
for the duration of one call. Whether a name parses as `%Y%m%d` is a
predicate parameter. "Today", the age cutoff and the hostname are
parameters too. The catalog's `update ... where` on a missing key changes
nothing. An insert of an existing key fails. `claimItem` overwrites
whatever claim the row had.

## Model

| member | source | states |
|---|---|---|
| DateOrder.SortAscending | modules/dumps.py:233 | `sorted` returns its input in ascending string order: same multiset, same length |
| DateOrder.InsertSorted | modules/dumps.py:233 | one insertion step keeps the sequence ascending and adds exactly the new element |
| DateOrder.BeforeTransitive | modules/dumps.py:233 | the string order `sorted` uses is transitive |
| DateOrder.BeforeTotal | modules/dumps.py:233 | any two distinct date strings are ordered one way or the other |
| DateOrder.BeforeIrreflexive | modules/dumps.py:233 | no date sorts before itself |
| DateOrder.LatestExists | modules/dumps.py:562 | a non-empty set of stored dates has a latest date, which DESC ordering puts first |
| DateOrder.NewestOfSmallSet | modules/dumps.py:562 | when a wiki has no more dates than the LIMIT, the window is every stored date |
| DateOrder.NewestFirst | modules/dumps.py:562-569 | `ORDER BY dumpdate DESC LIMIT n` returns strictly descending dates: the n latest, or all of them when there are fewer |
| DateOrder.TakeLatest | modules/dumps.py:562 | taking the latest remaining date keeps the selection invariant (each selected date has exactly its position's count of later dates) |
| CatalogStore.Catalog.constructor | modules/dumps.py:28-73 | the table starts as the given rows |
| CatalogStore.Catalog.Insert | modules/dumps.py:505-526 | the insert succeeds exactly when the key is new, and then adds that row and nothing else |
| CatalogStore.Catalog.UpdateProgress | modules/dumps.py:490-503 | sets `progress` of that key's row only; a missing key changes nothing |
| CatalogStore.Catalog.UpdateCanArchive | modules/dumps.py:395-409 | sets `can_archive` of that key's row only; a missing key changes nothing |
| CatalogStore.Catalog.MarkArchived | modules/dumps.py:411-425 | sets `is_archived` to "1" and clears the claim of that row only |
| CatalogStore.Catalog.MarkChecked | modules/dumps.py:427-441 | sets `is_checked` to "1" and clears the claim of that row only |
| CatalogStore.Catalog.MarkFailedArchive | modules/dumps.py:443-457 | sets `is_archived` to "2" and clears the claim of that row only |
| CatalogStore.Catalog.MarkFailedCheck | modules/dumps.py:459-473 | sets `is_checked` to "2" and clears the claim of that row only |
| CatalogStore.Catalog.ClaimItem | modules/dumps.py:475-488 | writes the hostname into `claimed_by` unconditionally, overwriting any earlier claim |
| CatalogStore.PickWhere | modules/dumps.py:350-393 | the random pick returns an unclaimed row that meets every column condition, and returns None only when no row does |
| CatalogStore.CountedRowIsPickable | modules/dumps.py:265-288 | when a count is positive and the pick's conditions include the count's, the pick finds a row |
| CatalogStore.LeavingShrinksCount | modules/dumps.py:336-348 | writing a row so that it no longer matches removes exactly that row from the count |
| CatalogStore.Settle | modules/dumps.py:808-832 | after a non-debug dispatch, archive and check set their flag to "1" on success or "2" on failure and release the claim, leaving every other column alone; the update job leaves the claim in place |
| CatalogStore.SettleLeavesQueue | modules/dumps.py:808-832 | a settled row leaves every query that waits on the job's flag being "0" |
| CatalogStore.Conclude | modules/wikidata.py:708-749 | after a non-debug `dispatch` whose job raised, the row keeps the claim and every flag it had; a job that returned settles it |
| CatalogStore.RaisedRowIsStranded | modules/wikidata.py:708-749 | a row whose job raised is in no work query any more, yet meets exactly the column conditions it met before, the job's "0" flag included |
| CatalogStore.GetStoredDumps | modules/dumps.py:528-569 | `getStoredDumps` returns, latest first, the newest `limit` dates of the wiki whose rows meet the conditions |
| CatalogStore.RetouchEachIsRetouch | modules/dumps.py:731-743 | looping over a list of dates and editing each row gives the same table as editing every listed date at once |
| CatalogStore.RegisterEachIsRegister | modules/dumps.py:715-729 | the insert loop over listed dates gives exactly the rows of the unstored, admitted dates, each inserted once |
| CatalogStore.RetouchOneMore | modules/dumps.py:731-743 | editing one more date extends the per-date pass by exactly that date's edit |
| CatalogStore.RegisterOneMore | modules/dumps.py:715-729 | registering one more listed date extends the pass by at most that date's row |
| CatalogStore.RetouchFrame | modules/dumps.py:731-787 | an edit pass keeps every key, changes only `progress` or `can_archive`, and changes only rows of that wiki on the listed dates |
| CatalogStore.RegisterFrame | modules/dumps.py:715-729 | a registration keeps every row, adds only listed, admitted, unstored dates of that wiki, and adds every such date |
| CatalogStore.RetouchAt | modules/dumps.py:731-743 | at one existing row, a pass applies the date's edit exactly when the date is listed |
| CatalogStore.SmallWikiFitsWindow | modules/dumps.py:562 | a wiki with no more dates than the LIMIT has every matching date in the window |
| CatalogStore.RetouchKeepsDates | modules/wikidata.py:544-591 | an edit pass leaves every wiki's set of stored dates as it was |
| CatalogStore.ElemsOneMore | modules/dumps.py:715 | the dates seen after one more loop round are the earlier ones plus that round's date |
| SourceInspector.DateEntries | modules/dumps.py:227-232 | keeps exactly the linked names that parse as dates, in listing order |
| SourceInspector.AllDumps | modules/dumps.py:210-233 | `getAllDumps` is ascending and holds exactly the linked names that parse as dates |
| SourceInspector.GetAllDumps | modules/dumps.py:210-233 | the filtering loop and sort compute `AllDumps` |
| SourceInspector.DumpFiles | modules/dumps.py:187-208 | the expected files are the scraped names plus `dumpruninfo.txt` and `status.html`, sorted |
| SourceInspector.CheckDumpDir | modules/dumps.py:235-263 | True exactly when the directory exists and lists every expected file |
| SourceInspector.Check | modules/dumps.py:671-692 | True exactly when every expected file is in the item's file list (a subset test) |
| SourceInspector.Missing | modules/dumps.py:607-615 | the resume list holds exactly the expected files the item lacks, and is empty exactly when the item has all of them |
| SourceInspector.PresentIn | modules/dumps.py:621-628 | keeps exactly the checksum names the directory holds, in order |
| SourceInspector.SelectMissing | modules/dumps.py:607-615 | the resume loop computes `Missing` |
| SourceInspector.UploadAll | modules/dumps.py:632-669 | uploads go in order, only the first carries metadata, the loop stops at the first failure, and the result is True exactly when every upload succeeded |
| SourceInspector.UploadRunUnique | modules/dumps.py:632-669 | the files and the per-request outcomes determine the upload run completely |
| MainDumps.FirstHalt | modules/dumps.py:124-135 | the scan position stays within the status list |
| MainDumps.FirstHaltMeaning | modules/dumps.py:124-135 | every status before the halt is counted, and the status at the halt is not |
| MainDumps.AnyPendingMeaning | modules/dumps.py:130-131 | some job is pending exactly when some status is "in-progress" or "waiting" |
| MainDumps.GetDumpProgress | modules/dumps.py:100-146 | the two-counter loop returns the progress `DumpRunStatus` defines |
| MainDumps.RunStatusMeaning | modules/dumps.py:124-146 | "done" exactly when the list is non-empty and all finished; "progress" exactly when all are counted and one is pending; "error" exactly when a "failed" comes before any uncounted status |
| MainDumps.ItemsLeftMeaning | modules/dumps.py:265-288 | the archive count is positive exactly when an unclaimed, finished, archivable, unarchived row exists; similarly for check; update counts none |
| MainDumps.GetRandomItem | modules/dumps.py:290-316 | returns an eligible row for archive or check, None for update, and always a row when the count is positive |
| MainDumps.CheckPickOutrunsCount | modules/dumps.py:350-393 | the check pick omits the `progress` condition the check count has, so it can find a row the count does not count |
| MainDumps.ArchivePlanMeaning | modules/dumps.py:571-630 | refuse exactly an incomplete directory; report "already uploaded" exactly when resuming and the item has every file; otherwise send every expected file (the missing ones when resuming) plus the checksum files the directory holds |
| MainDumps.Archive | modules/dumps.py:571-669 | `archive` succeeds exactly as `ArchiveSucceeds` says, and uploads the planned items as `UploadRun` describes |
| MainDumps.AppendPresent | modules/dumps.py:621-628 | appends the checksum files that exist, in order |
| MainDumps.RunJob | modules/dumps.py:808-829 | the job dispatch runs succeeds exactly as `JobSucceeds` says |
| MainDumps.Dispatch | modules/dumps.py:790-832 | claims unless debugging; in debug mode it returns the outcome and writes nothing; otherwise it settles the row with the outcome |
| MainDumps.SnapWithin | modules/dumps.py:707-713 | every date in a list read before step 1 is a row of the wiki that meets that list's conditions |
| MainDumps.RecheckProgressAt | modules/dumps.py:731-743 | step 2 replaces "progress" by any fresh status other than "progress" |
| MainDumps.PromoteAt | modules/dumps.py:744-758 | step 3 makes a listed row archivable exactly when its directory is complete |
| MainDumps.RecheckFailureAt | modules/dumps.py:759-771 | step 4 replaces "error" by any fresh status other than "error" or "unknown" |
| MainDumps.DemoteAt | modules/dumps.py:772-787 | step 5 makes a listed row unarchivable exactly when its directory is incomplete |
| MainDumps.AddNewItem | modules/dumps.py:505-526 | inserts a row with the probed progress and every flag "0", and fails for an existing key |
| MainDumps.RegisterNewDumps | modules/dumps.py:715-729 | step 1 inserts a probed row for each listed date that is not stored |
| MainDumps.RecheckInProgress | modules/dumps.py:731-743 | step 2's loop equals the per-date recheck over its list |
| MainDumps.RecheckOneInProgress | modules/dumps.py:732-743 | one round of step 2 |
| MainDumps.PromoteComplete | modules/dumps.py:744-758 | step 3's loop equals the per-date promotion over its list |
| MainDumps.RecheckFailed | modules/dumps.py:759-771 | step 4's loop equals the per-date recheck over its list |
| MainDumps.RecheckOneFailed | modules/dumps.py:760-771 | one round of step 4 |
| MainDumps.DemoteIncomplete | modules/dumps.py:772-787 | step 5's loop equals the per-date demotion over its list |
| MainDumps.UpdateWiki | modules/dumps.py:706-787 | one wiki's pass reads its five lists first, then runs the five steps |
| MainDumps.Update | modules/dumps.py:694-788 | `update` returns True after one pass per public wiki, in list order |
| MainDumps.ReconcileWikiFrame | modules/dumps.py:706-787 | a pass deletes nothing and leaves other wikis alone; it keeps the archive and check flags, the claim and the comments; every row it adds is a listed date with the probed progress and every flag "0" |
| MainDumps.ReconcileRegistersListing | modules/dumps.py:715-729 | after a pass, every listed dump date of the wiki has a row |
| MainDumps.NewDumpWaitsOnePass | modules/dumps.py:707-729 | a dump registered in a pass is not archivable until a later pass, because the lists were read before step 1 |
| MainDumps.PassRowProgress | modules/dumps.py:731-771 | after steps 2 and 4, an in-progress row has the fresh status, and a failed row keeps "error" over "unknown" |
| MainDumps.PassChain | modules/dumps.py:731-787 | the four edit steps at one row compose to `PassRow` |
| MainDumps.ReconcileWikiAt | modules/dumps.py:706-787 | each existing row of the wiki ends the pass as `PassRow` says |
| MainDumps.ReconcilePromotes | modules/dumps.py:744-758 | a finished, unarchivable row in the window ends the pass archivable exactly when its directory is complete |
| MainDumps.ReconcileDemotes | modules/dumps.py:772-787 | an archivable row in the window ends the pass archivable exactly when its directory is complete, with `is_archived` unchanged |
| MainDumps.ReconcileRechecks | modules/dumps.py:731-771 | an in-progress row in the window ends with the fresh status; a failed one ends with it unless that is "error" or "unknown" |
| MainDumps.OtherWikisUntouched | modules/dumps.py:706 | `update` never changes a row of a wiki outside its list |
| MainDumps.Execute | modules/dumps.py:834-881 | update runs `update`; a wiki without a date (or the reverse) returns False and writes nothing; wiki and date dispatch one dump with `--resume`; continuous mode outside debug ends with nothing left, each changed row settled; in debug it loops forever when there is work |
| MainDumps.WorkThrough | modules/dumps.py:868-873 | the continuous loop terminates: each dispatch settles a row the job's pick could select, so the number of rows the pick could select drops by one; the loop stops when the job's count is zero |
| Wikidata.StripSlash | modules/wikidata.py:116-120 | drops exactly one trailing slash, when there is one |
| Wikidata.CleanLinks | modules/wikidata.py:113-121 | keeps every link except "../", each without its trailing slash, and never adds links |
| Wikidata.ExtractLinks | modules/wikidata.py:97-122 | `extractLinks` is ascending and holds exactly the cleaned links, with their multiplicities |
| Wikidata.CleanLinksKeepsCount | modules/wikidata.py:113-121 | without a "../" link, no link is dropped |
| Wikidata.ItemsLeftMeaning | modules/wikidata.py:288-309 | the counts have no `progress` condition: archive counts unclaimed archivable unarchived rows, check counts unclaimed archived unchecked rows |
| Wikidata.GetRandomItemSql | modules/wikidata.py:353-395 | returns an eligible row, and None exactly when the count is zero |
| Wikidata.AddNewItem | modules/wikidata.py:492-518 | inserts a fresh row only for a date that parses and is not stored |
| Wikidata.UpdateNewDumps | modules/wikidata.py:520-542 | step 1 registers each listed, parsing date missing from the stored window |
| Wikidata.UpdateCanArchiveStatus | modules/wikidata.py:544-568 | step 2 makes a windowed, unarchivable, listed date archivable once it is no later than the cutoff |
| Wikidata.UpdateOldCanArchiveStatus | modules/wikidata.py:570-591 | step 3 makes a windowed, archivable date that is no longer listed unarchivable |
| Wikidata.UpdateDatabase | modules/wikidata.py:697-704 | one database's pass: the three steps, each reading its list after the previous step |
| Wikidata.Update | modules/wikidata.py:688-706 | `update` returns True after one pass per database linked from the index |
| Wikidata.ReconcileAllOneMore | modules/wikidata.py:697-704 | one more database extends `update` by exactly that database's pass |
| Wikidata.RipeAt | modules/wikidata.py:544-568 | at one row, step 2 sets `can_archive` to "1" exactly for a listed date in its list that is no later than the cutoff |
| Wikidata.WithdrawnAt | modules/wikidata.py:570-591 | at one row, step 3 sets `can_archive` to "0" exactly for a date in its list that is no longer listed |
| Wikidata.RegisteredDates | modules/wikidata.py:520-542 | registration adds only listed dates |
| Wikidata.RegisteredFits | modules/wikidata.py:520-542 | a database whose stored and listed dates fit the window still fits after registration |
| Wikidata.ReconcileDatabaseAt | modules/wikidata.py:697-704 | in a database that fits the window, each stored or newly listed date ends the pass with `SettledCanArchive`; a new, old-enough dump is archivable in the same pass, and an unlisted one is withdrawn |
| Wikidata.GetFilesToUpload | modules/wikidata.py:593-619 | as written: `Some([])` when resuming with nothing missing, and None on every other path |
| Wikidata.FilesToUpload | modules/wikidata.py:593-619 | as intended: every expected file, or when resuming exactly those the item lacks; an empty resume list means the item is complete |
| Wikidata.FreshUploadLosesFiles | modules/wikidata.py:606-619 | for a fresh upload of a one-file dump, the selection as written gives None where the intended one gives the file |
| Wikidata.ArchiveAsWritten | modules/wikidata.py:621-662 | as written: returns False exactly for a given directory that does not exist, otherwise True exactly when resuming an item that has every file, and raises in every other case (the selection of None reaches the loops at wikidata.py:234 and 259); it never uploads |
| Wikidata.DispatchAsWritten | modules/wikidata.py:708-749 | as written: claims unless debugging; raises exactly when the job raises, and then leaves the claim; otherwise returns the outcome in debug mode, or marks the row and releases the claim |
| Wikidata.ContinuousArchiveStrandsRow | modules/wikidata.py:708-749 | continuous mode archives with resume off, so as written every archive without a missing given directory raises: the claimed row keeps `is_archived` "0" and leaves the archive queue unarchived |
| Wikidata.Archive | modules/wikidata.py:621-662 | as intended: succeeds exactly when the directory holds the selection and every upload succeeds; uploads nothing for an incomplete directory; removes the dump directory after a complete upload into it |
| Wikidata.ArchiveAgreesWhereItReturns | modules/wikidata.py:621-662 | wherever the archive as written returns a value, the corrected archive returns the same value |
| Wikidata.Dispatch | modules/wikidata.py:708-749 | as intended: claims unless debugging; in debug mode it returns the outcome and writes nothing; otherwise it settles the row with the outcome |
| Wikidata.DispatchShrinksBacklog | modules/wikidata.py:708-749 | as intended, a non-debug archive or check of an eligible row releases the claim and lowers the job's count by exactly one |
| Mediacounts.ItemsLeftMeaning | modules/mediacounts.py:230-265 | archive counts unclaimed archivable unarchived dates; check counts unclaimed archived unchecked dates; update counts none |
| Mediacounts.GetRandomItemSql | modules/mediacounts.py:282-318 | returns an eligible date, and None exactly when the count is zero |
| Mediacounts.GetRandomItem | modules/mediacounts.py:267-280 | archive and check query; any other job gets None |
| Mediacounts.GetDumpDates | modules/mediacounts.py:205-228 | the 30 newest stored dates with the given `can_archive`, strictly newest first, all of them stored |
| Mediacounts.ClaimItem | modules/mediacounts.py:401-417 | reports success; in debug mode it writes nothing, otherwise it overwrites the date's claim |
| Mediacounts.GetFiles | modules/mediacounts.py:124-134 | as intended: a date has two distinct files, the full table and the top-1000 table |
| Mediacounts.GetFilesInjective | modules/mediacounts.py:124-134 | different dates never share their file names |
| Mediacounts.DispatchAsWritten | modules/mediacounts.py:555-584 | as written: archive and check raise at `getFiles` (mediacounts.py:134), after the claim at 559; so outside debug mode the row keeps the claim and is never marked |
| Mediacounts.DispatchStrandsRow | modules/mediacounts.py:555-584 | as written, a non-debug archive or check of an eligible date takes it out of the job's queue while its flag stays "0" and the claim stays |
| Mediacounts.Archive | modules/mediacounts.py:419-480 | with the corrected `getFiles`: succeeds exactly when the directory holds every file and every upload succeeds; uploads nothing for an incomplete directory; removes the downloads only after full success without a path |
| Mediacounts.Dispatch | modules/mediacounts.py:555-584 | with the corrected `getFiles`: calls the claim in every mode; in debug mode it returns the outcome and writes nothing; otherwise it settles the row |
| Mediacounts.DispatchShrinksBacklog | modules/mediacounts.py:555-584 | with the corrected `getFiles`, a non-debug archive or check of an eligible date lowers the job's count by exactly one |
| Mediacounts.AddNewItem | modules/mediacounts.py:527 | the missing `addNewItem`, as intended: inserts a fresh row for a new date and fails for a stored one |
| Mediacounts.Update | modules/mediacounts.py:505-553 | as intended: the result is `Refreshed` of the old table |
| Mediacounts.RefreshedRows | modules/mediacounts.py:514-553 | the intended update adds exactly today, yesterday and the day before; yesterday and the day before are archivable; a new row for today is not |
| Mediacounts.RefreshedKeepsOthers | modules/mediacounts.py:514-553 | the intended update changes no other row, and only `can_archive` of the rows it finds |
| Mediacounts.RefreshIdempotent | modules/mediacounts.py:505-553 | running the intended update twice on the same day gives the same table as once |
| Mediacounts.RefreshQueuesYesterday | modules/mediacounts.py:530-540 | after the intended update, yesterday's dump waits for the archive job unless it was claimed or its `is_archived` is not "0" (archived or failed) |
| Mediacounts.UpdateAsWritten | modules/mediacounts.py:505-553 | as written: any of the three dates missing from the window reaches the undefined `addNewItem` and raises |
| Mediacounts.AsWrittenNeverRegisters | modules/mediacounts.py:518-527 | the update as written adds no row, and raises whenever today has none, while the intended one always registers today |
| Mediacounts.EmptyTableStaysEmpty | modules/mediacounts.py:524-527 | on an empty table the update as written raises and leaves it empty; the intended one registers the three days |
| LegacyDumps.GetDumpProgress | dumps.py:69-110 | the counter loop returns `RunStatus`: "error" if any job failed, else "progress" if one is pending, else "done" if one is done, else "unknown" |
| LegacyDumps.RunStatusAgrees | dumps.py:93-110 | with only failed, in-progress, waiting and done statuses, the legacy tally equals the module's |
| LegacyDumps.RunStatusDiffers | dumps.py:93-110 | an all-skipped dump is "unknown" here but "done" in the module; a "failed" after an unknown status is "error" here but "unknown" in the module |
| LegacyDumps.CheckAndMark | dumps.py:312-346 | returns True exactly when every expected file is in the item, and marks the row checked or failed check accordingly |
| LegacyDumps.StoredDates | dumps.py:363-365 | the stored-date lists hold exactly the wiki's dates whose rows meet the conditions |
| LegacyDumps.RegisterNewDumps | dumps.py:366-382 | step 1 inserts a row with the legacy-probed status for each listed date that is not stored |
| LegacyDumps.RecheckInProgress | dumps.py:383-398 | step 2's loop equals the per-date recheck over its list |
| LegacyDumps.RecheckOneInProgress | dumps.py:384-398 | one round of step 2, with the legacy tally |
| LegacyDumps.UpdateWiki | dumps.py:361-412 | one wiki's pass reads its three lists first, then runs the three steps |
| LegacyDumps.Update | dumps.py:348-415 | `update` returns True after one pass per public wiki |
| LegacyDumps.RecheckProgressAt | dumps.py:384-398 | step 2 at one row: the fresh status replaces "progress" unless it is "progress" |
| LegacyDumps.PassChain | dumps.py:383-412 | steps 2 and 3 at one row compose to `Steps` |
| LegacyDumps.ListedWhenMatching | dumps.py:364-365 | an existing row is in a list read before step 1 exactly when it meets that list's conditions |
| LegacyDumps.ReconcileWikiAt | dumps.py:361-412 | each existing row ends the pass as `PassRow` says |
| LegacyDumps.PromotesWhateverProgress | dumps.py:399-412 | step 3 has no "done" condition: an unarchivable row becomes archivable exactly when its directory is complete, whatever its progress |
| LegacyDumps.FailedDumpPromotedOnlyHere | dumps.py:365 | a failed dump with a complete directory becomes archivable in the legacy pass but not in the module's |
| LegacyDumps.ReconcileWikiFrame | dumps.py:361-412 | a pass deletes nothing and leaves other wikis alone; it keeps the archive and check flags, the claim and the comments; a new row has the legacy status and every flag "0" |

## Left out

- runner.py is not part of this model. It is argument parsing, module lookup and the six-hour outer loop.
- Network access and HTML or regex scraping: the scraped links, statuses and file names are inputs.
- The filesystem: `listdir` and `exists` become optional listings. `chdir`, `downloadFiles`, `removeFiles` and `rmtree` are left out; mediacounts' `archive` reports whether it would remove its downloads.
- The Internet Archive upload and file-list calls are abstract outcomes and sets. Item metadata, `BALConverter` name and date formatting, and `BALConfig` are left out. The archive date conversion is taken to be one-to-one, so catalog rows are keyed by the dump date string.
- Sleeps, `datetime.now`, `socket.gethostname` and the dblist cache age check: "today", the cutoff and the hostname are parameters.
- `strptime('%Y%m%d')` is an abstract predicate on names.
- The removal of private wikis from the wiki list is list plumbing over a foreign file. The model takes the public wiki list as given.
- The SQL store itself: its `select` is taken to give None when no row matches. Its statements are taken to report success. `ORDER BY RAND()` is any matching row.
- Concurrency: the claim is a plain overwrite with no compare-and-set and no lease. The model runs one worker and does not model races.
- MainDumps.Archive: the `path` override of the dump directory is not modelled. The directory is always the configured one for the dump.
- MainDumps.Execute: in debug mode the continuous loop never ends while work is left. The model performs no loop there and reports `RunsForever` with the table unchanged.
- MainDumps.Execute: continuous mode runs with `resume` off, as the attribute's default. Only the single-dump branch reads `--resume`.
- Wikidata.ArchiveAsWritten: the wikidata `archive` raises TypeError whenever it reaches a loop over the None that `getFilesToUpload` gives, in `downloadFiles` (no path) or in `checkDumpDir` (a given directory that exists). Its upload branch and the removal after it are unreachable as written. The corrected Wikidata.Archive returns True after that removal, where the code as written would fall off the end.
- Mediacounts.Archive and Mediacounts.Dispatch use the corrected `getFiles`. As written, `getFiles` applies `%` to a list and raises on every call, so no archive or check returns; Mediacounts.DispatchAsWritten models that. The archive-form date conversion (`getDateFromWiki`) is an input.
- Mediacounts `execute` indexes the picked date string as a dict, so its continuous loop fails on the first item. The model leaves `execute` out.
- Mediacounts statements compare the date column with an unquoted number. The model takes the condition to select that date's row.
- The legacy `archive` uses an undefined `allfiles` in both branches. It is left out.
- The legacy `dumps.py` calls `sqldb.getAllDumps`, `addNewItem`, `updateProgress`, `markCanArchive`, `markChecked` and `markFailedCheck` of a store class that is not part of this model. The model takes them as the module families' statements, with no row limit on the lists: `addNewItem` as `Catalog.Insert` of `NewRow(Some(progress))`, `updateProgress` as `Catalog.UpdateProgress`.
- The legacy and module `getDatabases` (file read and sort) are left out; the wiki list is an input.

## Findings

| source | as written | input that shows it | evidently intended | confidence | as-written member | corrected member |
|---|---|---|---|---|---|---|
| modules/mediacounts.py:518-553 | `update` calls `self.addNewItem`, which the class never defines. Any of today, yesterday or the day before missing from the 30 newest stored dates raises before it inserts anything. | an empty table: `update` raises and the table stays empty, so no date ever becomes archivable through it | insert the missing dates (today not archivable), then set `can_archive` to "1" for yesterday and the day before | not executed | Mediacounts.UpdateAsWritten, Mediacounts.EmptyTableStaysEmpty | Mediacounts.Update, Mediacounts.RefreshedRows |
| modules/wikidata.py:606-619 | `getFilesToUpload` returns only on the "nothing missing" path and otherwise falls off the end, returning None | resume off, one expected file: the result is None instead of that file | return the selected list on every path | not executed | Wikidata.GetFilesToUpload, Wikidata.FreshUploadLosesFiles | Wikidata.FilesToUpload |
| modules/wikidata.py:621-662 | `archive` loops over the None from `getFilesToUpload` and raises TypeError, after `dispatch` claimed the row | continuous archive (resume off, no path) of any eligible dump: `dispatch` raises, the row keeps the claim and `is_archived` "0", and no query selects it again | upload the selected files, then mark the row | not executed | Wikidata.DispatchAsWritten, Wikidata.ContinuousArchiveStrandsRow | Wikidata.Dispatch, Wikidata.ArchiveAgreesWhereItReturns |
| modules/mediacounts.py:51-54, 124-134 | `getFiles` applies `%` to a list, which raises TypeError; the two templates also lack a comma and form one string | a non-debug archive of any eligible date: `dispatch` raises after the claim, and the row is stranded unarchived | two file names per date, formatted with its archive-form date | not executed | Mediacounts.DispatchAsWritten, Mediacounts.DispatchStrandsRow | Mediacounts.GetFiles, Mediacounts.Dispatch |
