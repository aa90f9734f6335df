# Bunkarr: a verified model of its core

Bunkarr keeps a catalog of media folders, backs up the applications around them and restores what it backed up.
This project models the parts whose mistakes would lose or invent files, and proves what they promise. The program
is Go; the model is Dafny 4.11. `dafny verify dfyconfig.toml` checks all of it.

## What is modelled

- **The catalog scan** (`paths`, `excludes`, `tree`, `groups`, `catalog`, `stats`, `fullscan`, `refusals`, `skips`,
  `hardlinks`, `targets`, `refinement`, `outcomes`, `runs`, `scanner`, `queries`). A source tree is a value whose folders and files may be unreadable, missing, fatal or
  key folders. The full and the targeted scan are given twice: as functions of tree and catalog, about which the main
  results are proved (when a scan is refused and what it leaves, both told from the tree alone; which names share a
  hardlink group; that cut-off scans do no harm; that the targeted scan refines the full one; that the groups stay sound
  over every run), and as the imperative `ScanRun`, proved to refine those functions
  and to leave a committed prefix when it stops.
- **Locks, gates and sign-ins** (`lock`, `gate`, `signin`). Each is a state machine whose steps are the code's critical
  sections. Safety is proved over all interleavings; the methods are then proved to take those steps, with other calls
  running between them. What plex.tv answers, and whether other calls come in between, is given to a method.
- **The login limiter** (`limiter`, `undo`), a class with a history of all records of a key, and what its undo does
  after any run of calls.
- **The listing cache** (`listings`) over a disk that changes at any time, and **the root identity** of a source
  (`identity`).
- ***arr backups** (`retention`, `versions`, `arrrules`, `arrbackup`, `arrenv`, `arrruns`, `arrjob`). A destination is a
  map of directories and a table of rows. What an attempt meets is given, for any choice: the accesses that fail, the
  backups the application offers, and whether the process may stop, which it then does between any two changes. `Run` follows the code from recovery to prune. `RunJob` repeats attempts with events of
  other jobs and programs between them; `arrruns` says what holds of every run.
- **Zip end records** (`zip`): the reader that counts entries without trusting the directory, against the format of
  sections 4.3.14 to 4.3.16 of PKWARE's APPNOTE.TXT.

`bytes`, `sets` and `wrappers` hold what several modules need: byte strings in byte order, sorting, sizes of sets.

## Where the code does less than its text says

- An interrupted *arr job is documented to return the version its earlier attempt wrote. When the manifest of that
  version cannot be read, recovery only warns, and the job writes a second one (`internal/arrbackup/recover.go:93-98`); a
  later recovery then adopts the first. `ArrJob.TwoVersionsOfOneJob` is such a run, from an empty destination. The same
  happens when the folder or the version cannot be looked at (`internal/arrbackup/recover.go:46-48`, `:89-92`). The exact
  condition is `ArrRules.Overlooks`, on the state before the attempt and the accesses that fail in it: a job that
  succeeds has written a second version if and only if it holds of its last attempt (`ArrRuns.SecondVersionIff`).
- `prune` of the limiter takes the empty key for "none yet" (`internal/auth/limiter.go:145-148`). It picks an oldest key
  in every order if and only if the empty key is not older than all others (`LoginLimiter.PicksOldestIff`;
  `LoginLimiter.WrongPick` is the smallest input). The program's own callers pass an address or "invalid IP", never the
  empty key.
- The listing cache promises that an unchanged stat means an unchanged folder. That holds if and only if the last change
  is older than the racy window: `DirListings.KeepConditionIsExact`.

## Model

Paths are relative to the repository. A row names the member whose contract states the property.

| member | source | states |
|---|---|---|
| Paths.CanonicalTargets | internal/catalog/scanpaths.go:106-127 | refused exactly when some path is not a valid target; otherwise the one list that is sorted, without duplicates, an antichain, and covers the same paths |
| Paths.CanonicalUnique | internal/catalog/scanpaths.go:101-127 | that canonical list is unique, so the order and the repetitions of the input do not matter |
| Paths.PrefixRangeIsInside | internal/catalog/scanpaths.go:510-516 | the half-open key range of a folder in byte order holds exactly the strings that start with the folder and a slash |
| Paths.InsideAnother | internal/catalog/scanpaths.go:112-126 | the walk upwards with path.Dir finds a listed path above p if and only if there is one |
| Excludes.MatcherExcluded | internal/catalog/exclude.go:86-112 | the matcher with its lazily lower-cased names decides as the plain rule "some pattern matches" does |
| Excludes.NewMatcher | internal/catalog/exclude.go:75-84 | the compiled list is the defaults, folding case, then the source's own patterns |
| Excludes.MatcherExcludedWithin | internal/catalog/exclude_export.go:55-68 | walking a path from its first element answers whether any element of the path is excluded as what it is |
| Excludes.NewSourceExcludes | internal/api/webhooks.go:140-180 | the webhook receiver compiles the same list as the catalog |
| Excludes.SourceExcludesExcluded | internal/api/webhooks.go:182-216 | the receiver's own loop over the elements, from either end, answers what ExcludedWithin answers |
| Excludes.DecideBoth | internal/api/webhooks.go:140-216 | for every pattern list and every string, the catalog and the webhook receiver decide alike, each with its own parser and its own way through the path |
| Excludes.LeftOutIff | internal/catalog/exclude.go:58-112 | a path is left out if and only if some element of it is hit by a default, folding case, or an own pattern; a pattern is read from its text: a trailing slash for folders alone, a slash elsewhere for the whole path, none for the name |
| Tree.WalkExact | internal/catalog/scan.go:638-755 | path by path, the recursive walk sees a file with its metadata exactly when following the names of the path reaches it, and reports a folder unreadable exactly when it reaches it and cannot list it |
| Tree.ReachExcluded | internal/catalog/scan.go:638-755 | excludes only cut off: what is reached with them is what is reached without them and has no excluded element |
| Tree.WalkIsExcludedWithin | internal/catalog/scan.go:638-755 | a regular file is catalogued if and only if it is there behind readable folders that are neither forbidden nor hold the key, and ExcludedWithin is false for its path |
| Tree.WalkFilesDistinct | internal/catalog/scan.go:638-755 | no walk sees one path twice |
| Groups.PlanGroups | internal/catalog/group.go:29-58 | whatever the order in which the map is ranged over, the groups are the same, in the order of their first paths, and the inodes reported as split are exactly those not grouped; `Hardlinks.GroupedIff` says which rows then share a group |
| Groups.DecideBucket | internal/catalog/group.go:36-50 | names are grouped exactly when they agree in their metadata and are at most as many as the link count; `Hardlinks.GroupedIff` says what that means for the rows |
| Groups.GroupIdInjective | internal/catalog/scan.go:985-1005 | the printed group ids of different sources, scans or groups differ, although they are joined decimal numbers |
| Hardlinks.GroupedIff | internal/catalog/group.go:29-58 | after a full scan two rows share a group if and only if both are names of one file as it was found: every reached name of their inode has the same metadata, these are at most as many as its link count, which is at least two, and the check keeps them |
| Hardlinks.HardlinksAreGrouped | internal/catalog/group.go:29-58 | all reached names of an inode that agree and are at most as many as the link count end in one group, whether or not further names lie outside the source; nothing else joins it |
| Catalog.CommitPrefixAt | internal/catalog/scan.go:899-940 | after any number of committed rows, a row is as it was, or rewritten for the file the walk saw, or only stamped because its metadata already agreed |
| Catalog.CommitThenFinishAt | internal/catalog/scan.go:899-1031 | one row through all batches and the final transaction, full or targeted: its new state as a function of its old state, of what the walk saw, and of whether it is hidden or in scope |
| CatalogStats.UniqueBytesCountsEachInodeOnce | internal/catalog/files.go:282-302 | the query that subtracts the extra names of each group equals the sum of the ungrouped files plus one size per group, and lies between 0 and Bytes |
| FullScan.ScanExact | internal/catalog/scan.go:352-388 | after a successful full scan the live rows are exactly the files the walk reaches, with their metadata, and the rows that were live under folders it could not read |
| FullScan.ScanRows | internal/catalog/scan.go:899-1031 | after a successful full scan every row is given: a reached file is live with its metadata, stamped; any other keeps its metadata and stamp, leaves its group, and is marked deleted exactly if it was live and is not hidden under an unreadable folder; no row goes |
| Refusals.RefusedIff | internal/catalog/scan.go:352-388 | a full scan is refused if and only if the root cannot be used, or following some path of readable folders meets a failing mount, or no file is reached while a row is live, or the check of a group fails |
| Skips.SkippedCount | internal/catalog/scan.go:638-755 | the stored number of skipped entries is the number of paths at which the walk reaches an entry that is neither file nor folder and is not excluded |
| FullScan.CutOffDeletesNothing | internal/catalog/scan.go:899-940 | a scan that is refused or cut off between its transactions marks no live row deleted; a row that is deleted afterwards is as it was |
| FullScan.RerunConverges | internal/catalog/scan.go:352-388 | a scan run again from anything between the old catalog and the walk ends with the rows, groups, group ids and statistics of one that never stopped |
| FullScan.CrashesDoNotMatter | internal/catalog/scan.go:352-388 | any number of cut-off scans and then a whole one leave the rows, groups and statistics the whole one alone would have left, but for time stamps |
| Refinement.VisitAgrees | internal/catalog/scanpaths.go:362-488 | a target's walk, name by name from the root, says about every path under the target what the walk of the whole source says |
| Refinement.VisitHides | internal/catalog/scanpaths.go:362-488 | under a scanned or gone target the paths hidden by unreadable folders are those the full walk hides |
| Refinement.TargetedRefinesFull | internal/catalog/scanpaths.go:235-289 | the targeted scan refines the full one: under every target it scanned or found gone, and at every row it changed anywhere, the live metadata is what a successful full scan of the same tree leaves |
| Refinement.TargetedLeavesOthers | internal/catalog/scanpaths.go:693-800 | rows outside the scanned and gone targets that are no nominated hardlink partner are untouched |
| Outcomes.TargetOutcome | internal/catalog/scanpaths.go:362-514 | the state of a target: gone exactly if its folder opens and does not list it, but kept back if that folder is empty while the catalog has other live rows in it; scanned exactly if the way is open and what it names can be looked at; dropped otherwise |
| Outcomes.PartnersIff | internal/catalog/scanpaths.go:541-584 | a path is nominated as a partner if and only if its row is live and recorded with the inode of a walked file with several links, it lies outside the targets, and what is reached on disk there, behind folders that all open, has the metadata of the first such file |
| Outcomes.LstatIff | internal/catalog/scanpaths.go:622-690 | looking at a path finds a file exactly when every folder on the way opens, is not excluded, forbidden or a key folder, and lists the next name, and fails fatally exactly when a mount fails on the way |
| Outcomes.TargetedGroupedIff | internal/catalog/scanpaths.go:693-800 | after a targeted scan two rows it saw, under targets or as partners, share a group if and only if a kept group of what it saw holds both |
| Outcomes.HardlinksAreRegrouped | internal/catalog/scanpaths.go:541-584 | names of one inode that a targeted scan sees, partners outside its targets included, end in one group when they agree and are at most as many as the link count |
| Outcomes.ScanPathsRows | internal/catalog/scanpaths.go:693-800 | after a targeted scan every row is given: what it saw is live with its metadata, stamped; any other keeps its metadata and stamp, leaves its group exactly in scope, and is marked deleted exactly if it was live, in scope and not hidden |
| Outcomes.ScanPathsOutcomes | internal/catalog/scanpaths.go:235-289 | there is one outcome for each target, in order, given by that target alone; with none of them current the catalog stays as it was, with one of them the scan counts, and the stored number of skipped entries stays |
| Outcomes.ScanPathsRefusedIff | internal/catalog/scanpaths.go:235-289 | a targeted scan is refused if and only if the root cannot be used, or following some target meets a failing mount, or looking again at a partner does, or the check of a group fails |
| Runs.RunKeepsGroups | internal/catalog/scan.go:953-1031 | in every run of full and targeted scans, finished or cut off anywhere: each group holds live names that agree in their metadata, at most as many as the link count, with an id a scan so far made |
| Runs.IdsAreNeverReused | internal/catalog/scan.go:985-1005 | a group id that left use in a run is never used again |
| Runs.StoredStats | internal/catalog/files.go:282-302 | every finished scan of every run stores counts that equal the live rows, unique bytes counting each inode once, the grouped files and the groups |
| Scanner.ScanRun.WalkDir | internal/catalog/scan.go:638-704 | the recursive method that appends to the run's lists, looks up in batches and counts, adds exactly what the walk function says, or fails exactly when it refuses; `Tree.WalkExact` and `Refusals.RefusedIff` say what and when, path by path |
| Scanner.ScanRun.BuildGroups | internal/catalog/scan.go:839-865 | the planned groups, on FUSE only those whose contents were confirmed; fails when a confirmation fails |
| Scanner.ScanRun.Commit | internal/catalog/scan.go:899-940 | the batched upserts and stamps make the committed rows; stopped between transactions, a prefix of them |
| Scanner.ScanRun.Finish | internal/catalog/scan.go:953-1031 | one transaction: the rows not seen are marked gone, groups cleared and set, counter and statistics stored |
| Scanner.ScanRun.Run | internal/catalog/scan.go:352-388 | the imperative scan ends with the state `FullScan.Scan` describes; one that may not stop ends without it exactly when the scan is refused, and then changed nothing; a stopped one leaves a committed prefix. `Refusals.RefusedIff`, `FullScan.ScanExact` and `FullScan.ScanRows` say what the state is |
| Scanner.ScanRun.WalkTarget | internal/catalog/scanpaths.go:362-488 | one target, name by name from the root: its state and what was seen of it |
| Scanner.NominatePartners | internal/catalog/scanpaths.go:541-584 | the partners nominated are those `Targets.Nominate` gives, inode by inode in key order, or the scan is refused; `Outcomes.PartnersIff` says which they are |
| Scanner.LstatFile | internal/catalog/scanpaths.go:622-690 | one partner, name by name from the root, as `Targets.LstatPartner` says, which `Outcomes.LstatIff` characterises |
| Scanner.FinishTargetRows | internal/catalog/scanpaths.go:693-800 | the statements by key range, target by target, equal one pass over the rows in scope |
| Scanner.ScanRun.RunTargets | internal/catalog/scanpaths.go:235-289 | the imperative targeted scan ends with the outcome and the state `Targets.ScanPaths` describes; one that may not stop ends without them exactly when the scan is refused, and then changed nothing. `Outcomes.ScanPathsRefusedIff`, `Outcomes.TargetOutcome` and `Outcomes.ScanPathsRows` say what they are |
| Queries.LiveUnder | internal/catalog/scanpaths.go:807-826 | the live files that are or lie under one of the paths, each once, sorted; refused exactly for an invalid path |
| Queries.Iterate | internal/catalog/files.go:202-239 | paging by the last path, while the rows change between the pages: no path twice, only rows that matched at some time, and unless stopped every row that matched all along |
| Queries.StableIteration | internal/catalog/files.go:202-239 | on a catalog that does not change a complete iteration is exactly the matching rows |
| SourceLock.OneHolder | internal/catalog/lock.go:14-97 | in every interleaving of lock, tryLock and unlock: one holder at most per source, even when its entry was dropped and made anew; an entry exactly while calls refer to it, counting them; held tells whether somebody holds it; no unlock blocks |
| SourceLock.FreedByUnlock | internal/catalog/lock.go:46-55 | after the two steps of an unlock by the holder nobody holds the lock |
| SourceLock.SourceLocks.AcquireLock | internal/catalog/lock.go:57-70 | with other calls running between its steps: true with the lock held, or false with nothing left behind; with no other call in between and a caller that does not give up, true if and only if nobody held it |
| SourceLock.SourceLocks.TryLock | internal/catalog/lock.go:72-82 | true with the lock held, or false with the reference given back; with no other call in between, true if and only if nobody held it |
| SourceLock.SourceLocks.Unlock | internal/catalog/lock.go:46-55 | gives the lock back once, after which nobody holds it if no other call came in between; a second call changes nothing |
| SourceLock.SourceLocks.IsHeld | internal/catalog/lock.go:84-92 | true exactly when some call holds the lock |
| DirListings.KeepConditionIsExact | internal/catalog/locate.go:358-392 | an unchanged stat will always mean an unchanged folder if and only if the folder's last change lies more than the racy window before the reading |
| DirListings.TrustedLater | internal/catalog/locate.go:316-356 | a listing worth keeping stays worth trusting whatever happens on the disk |
| DirListings.Cache.Lists | internal/catalog/locate.go:316-356 | with other calls and disk changes between the steps: an answer from the cache was true of the disk at some time during the call, and of a listing younger than its time to live; an answer from a reading says what that reading saw; with nothing in between, the answer is whether the folder lists the name, and a usable listing is not read again |
| DirListings.Cache.Keep | internal/catalog/locate.go:358-392 | a listing is kept exactly when it was stamped, is old enough and fits, and the young ones stay; the counter of names is the number of kept names and stays within the limit |
| RootIdentity.FirstIdentityStays | internal/catalog/scan.go:390-454 | over any scans and edits: an accepted scan since the identity was last cleared saw the first one's filesystem type, on nfs, btrfs, zfs and overlay its root inode, and on a device with a fixed number that device |
| RootIdentity.AcceptedIff | internal/catalog/scan.go:390-454 | over any scans and edits: the next scan is accepted if and only if nothing was seen since the identity was last cleared, or its root has the last seen filesystem type and the last seen device or, where device numbers change with mounts, the last seen inode unless inode numbers are made at run time too |
| RootIdentity.EditAcceptedIff | internal/catalog/source.go:506-693 | an edit is accepted if and only if it changes neither path nor folder, or no job is active and, with backups, the folder stays and the new path shows the source: an unrecorded device or inode is compared with the present path itself |
| RootIdentity.UnrecordedIff | internal/catalog/source.go:506-582 | over any scans and edits, accepted or refused: a source has no recorded identity if and only if a clearing update (a plain re-save of a path that exists, or a path change without backups) came after its last scan |
| RootIdentity.PathChangeKeepsRoot | internal/catalog/source.go:618-693 | an accepted path change of a backed-up source leads to the recorded device and inode, or to another anonymous device of the same type that holds the catalogued files while the old path does not |
| RootIdentity.SourceRow.ScanRoot | internal/catalog/scan.go:390-454 | a scan is accepted exactly when the recorded columns agree and then records the root; a refused or stopped one changes nothing |
| RootIdentity.SourceRow.Save | internal/catalog/source.go:506-582 | an edit is accepted or refused, and changes the row, as the edit function says, whose exact condition is `RootIdentity.EditAcceptedIff`; the identity invariant holds after it |
| LoginLimiter.AttemptsBounded | internal/auth/limiter.go:49-78 | in every reachable state no interval shorter than the window holds more than max admitted attempts of a key, since its last Success or eviction |
| LoginLimiter.BlockedIff | internal/auth/limiter.go:31-60 | the failures kept inside the window are as many as the history of admitted attempts has there, so a key is blocked exactly when max of them are, until the oldest leaves |
| LoginLimiter.Limiter.Attempt | internal/auth/limiter.go:49-60 | admitted if and only if the history of the key has fewer than max attempts inside the window, and then recorded under the same lock; otherwise the wait until the oldest leaves; another key is evicted only for a new key when the map is full, and which one is as prune picks |
| LoginLimiter.Limiter.TakeBack | internal/auth/limiter.go:80-93 | the first time, the first failure at the undo's time goes, if there is one; later calls change nothing |
| LoginLimiter.Limiter.Prune | internal/auth/limiter.go:137-153 | afterwards there is room; a key is evicted only when the map is full of live keys; it is the one picked in some order of the live keys, and an oldest of them unless the empty key is older than all others |
| LoginLimiter.PicksOldestIff | internal/auth/limiter.go:140-149 | whatever the order in which the map is ranged over, prune picks a key whose last failure is the oldest, if and only if the empty key is not older than all other live keys |
| LimiterUndo.UndoTakesItsOwn | internal/auth/limiter.go:49-60 | after an attempt and any later calls, with no two clock readings alike: its undo removes that attempt's record if it is still kept, and no other record of any key |
| LimiterUndo.UndoAfterSuccess | internal/auth/limiter.go:80-100 | after an attempt, any calls, a Success of its key and any calls again, its undo finds nothing to remove |
| VersionGate.NeverTogether | internal/api/engines.go:200-262 | in every interleaving: no unlock runs while a version store is open, no two unlocks together, and open counts the stores that entered and have not left |
| VersionGate.ClosedOnce | internal/api/engines.go:245-262 | no channel is closed twice, and every waiter's channel is closed or still has an owner that will close it |
| VersionGate.FreeToUnlock | internal/api/engines.go:245-262 | the counter and the map tell exactly whether a store is open or an unlock runs |
| VersionGate.VersionGates.Enter | internal/api/engines.go:216-243 | waits while an unlock runs, then the store counts as open, or it is refused; with no other call in between it enters if and only if no unlock runs |
| VersionGate.VersionGates.StartUnlock | internal/api/engines.go:245-262 | succeeds exactly when no store is open and no other unlock runs |
| VersionGate.VersionGates.LeaveStore | internal/api/engines.go:228-242 | counts the store out once; a second call changes nothing |
| VersionGate.VersionGates.Release | internal/api/engines.go:252-262 | ends the unlock and closes its channel once; with no other call in between no unlock runs then; a second call changes nothing |
| SignIns.SignInsSafe | internal/api/plexsignin.go:65-247 | in every interleaving of requests and answers: live and reserved sign-ins never exceed the limit, an expired or removed one holds no secret, and no two saves hold one sign-in |
| SignIns.ConsumedOnce | internal/api/plexsignin.go:622-733 | once a save consumed a sign-in, no later request gets its token |
| SignIns.SweepExact | internal/api/plexsignin.go:138-158 | a sweep expires exactly the sign-ins past their time, drops their secrets, and forgets exactly the expired ones past theirs; the others stay as they are |
| SignIns.EndsIff | internal/api/plexsignin.go:138-247 | a live sign-in ends in a step if and only if it is removed or consumed, the registry is cleared, plex.tv does not know its PIN, or a sweep finds it past its time |
| SignIns.TokenAfterStep | internal/api/plexsignin.go:357-413 | a live sign-in gets a token exactly by plex.tv's approval of its PIN, with the servers that came with it and a new time to live; every other step leaves its token as it was |
| SignIns.TokensAreApproved | internal/api/plexsignin.go:357-413 | in every run, a token a sign-in holds is one plex.tv gave when it approved the PIN of that sign-in |
| SignIns.RunInTime | internal/api/plexsignin.go:172-212 | in every run, no sign-in has more time left than an unapproved or an approved one gets |
| SignIns.TokenForIff | internal/api/plexsignin.go:690-706 | the token is that of the first server listed with this id or, when it has none and the account owns it and the request allows it, the account's; with none of these there is none |
| SignIns.Registry.CreateSignIn | internal/api/plexsignin.go:298-325 | refused exactly when the swept sign-ins and the reservations reach the limit; otherwise, when plex.tv gives a PIN, a live, unapproved sign-in of its creator that expires with the PIN or after the limit, whichever is first; without one the reservation is given back |
| SignIns.Registry.CheckSignIn | internal/api/plexsignin.go:357-413 | plex.tv is asked exactly about a sign-in that is live, unapproved and was not asked about just before; its answer then applies to the sign-in as it is when the answer comes |
| SignIns.Registry.ClaimedResources | internal/api/plexsignin.go:454-495 | a list read a moment ago is returned without asking; otherwise the new answer is stored and returned, or without an answer the stored list; a sign-in that is gone or expired at that moment gives none |
| SignIns.Registry.ResolveToken | internal/api/plexsignin.go:669-733 | the token is the one `SignIns.Gives` describes, of a claimed, live sign-in of the same principal, which this save alone then holds; without one, the URL did not answer as the server or the sign-in cannot be used |
| SignIns.Registry.SaveWith | internal/api/plexsignin.go:622-646 | saved only when the URL answered as the server and the save worked, and then the sign-in is consumed; otherwise it is released, or could not be used |
| SignIns.Registry.Cancel | internal/api/plexsignin.go:415-426 | exactly a sign-in of this principal is removed, which is then gone and holds no secret |
| ZipEntries.ClassicRoundTrip | internal/arrbackup/verify.go:306-356 | a file written with a classic end record announces the total it was written with, 65535 included, unless its comment holds a later end signature or, for 65535, the bytes before the record pass for a zip64 locator |
| ZipEntries.Zip64RoundTrip | internal/arrbackup/verify.go:306-356 | a zip64 file announces the total of its zip64 record, whatever the other fields of the classic and the zip64 records say, unless its comment holds a later end signature |
| ZipEntries.AnnouncedEntries | internal/arrbackup/verify.go:319-356 | the reader with its backwards search gives what `ZipEntries.AnnouncedIff` describes, on all bytes; every read lies in the file |
| ZipEntries.AnnouncedIff | internal/arrbackup/verify.go:306-356 | a number is announced if and only if the last end signature stands at a record that fits, with at most a longest comment after it, and the number is its total, or, when that is full and a locator before it leads to a whole zip64 record, the total of that record |
| ZipEntries.CheckEntries | internal/arrbackup/verify.go:99-160 | a directory is accepted exactly when its entries are at most the limit, their names short and distinct, and the sizes add up to at most the limit; the 64-bit sums never wrap around |
| ZipEntries.LimitIs | internal/arrbackup/verify.go:99-160 | the most that entries may expand to: twenty times the file, at least 256 MiB and at most 32 GiB |
| ZipEntries.NamesOkIff | internal/arrbackup/verify.go:99-160 | the names pass exactly when each has at most 255 bytes and no two are alike |
| Retention.Keep | internal/snapshots/keep.go:41-71 | a version is kept exactly when it is ok and either fewer than daily ok versions are newer, or none of its week is newer and fewer than weekly weeks are |
| Retention.Prune | internal/snapshots/keep.go:73-91 | the versions removed, oldest first, are exactly the ok ones Keep does not keep and the failed ones that are old enough |
| Retention.NewestOkKept | internal/snapshots/keep.go:41-91 | no setting removes the newest ok version |
| Retention.NewestAreKept | internal/snapshots/keep.go:41-71 | any set of newest ok versions no larger than daily is kept |
| Retention.NewestOfWeekIsKept | internal/snapshots/keep.go:41-71 | the newest ok version of each of the last weekly weeks that have one is kept |
| Retention.KeptBound | internal/snapshots/keep.go:41-71 | at most daily plus weekly versions are kept, where daily counts as one at least |
| Retention.FailedStaysAWeek | internal/snapshots/keep.go:73-91 | a failed version is removed exactly when seven days have passed since it was made |
| Retention.PruneAgainRemovesNoKept | internal/snapshots/keep.go:73-91 | pruning what any part of a prune left removes nothing the first prune kept |
| ArrVersions.PublishKeeps | internal/snapshots/layout.go:280-297 | the rename that publishes a version keeps: names unique, nothing dated in the future, every ok row whole under one of its two names |
| ArrVersions.TrashKeeps | internal/snapshots/layout.go:174-203 | a prune's first rename keeps the same |
| ArrVersions.RestoreKeeps | internal/snapshots/layout.go:222-253 | giving a kept version its name back keeps the same |
| ArrVersions.SpoilKeeps | internal/arrbackup/recover.go:382-408 | a change made by something else spoils that version and no other |
| ArrBackup.Run.RemoveTree | internal/arrbackup/recover.go:410-432 | stopped anywhere, a removal leaves part of that directory and nothing else changed |
| ArrBackup.Run.Adopt | internal/arrbackup/recover.go:164-224 | an unrecorded version that recover could look at gets one row if it is adoptable and its accesses do not fail; the row is ok exactly if the manifest says ok, the zip matches and can be read; the files never change |
| ArrBackup.Run.RecoverAll | internal/arrbackup/recover.go:29-104 | in any order of names, stopped or failing anywhere: nothing recorded is touched; without failures every leftover of this integration is settled |
| ArrBackup.Run.RecoverTwice | internal/arrbackup/recover.go:29-104 | recovering again right away changes nothing |
| ArrRules.RecoveredIff | internal/arrbackup/recover.go:29-250 | a recovery without failures records an unrecorded version if and only if its manifest names this integration and application and a zip and, in another folder than the present one, a job of this integration; and exactly partial directories and unrecorded trash go |
| ArrBackup.Run.OwnVersion | internal/arrbackup/recover.go:109-133 | a resumed attempt returns a version of its job if and only if there is one whose directory it can look at |
| ArrBackup.Run.RecoverOwn | internal/arrbackup/recover.go:29-133 | an ok version it returns is one the failing accesses let through (`ArrRules.Returns`), and when it returns none there was none of these; then this job has no version if and only if no failing access (looking at the folder or at the version, reading the manifest or adding the row of one that waits, looking at one that is recorded) overlooks one that was there before |
| ArrRules.QuietUnlessOverlooked | internal/arrbackup/recover.go:29-133 | the same over states: which versions are overlooked is told from the state before recovery and the accesses that fail alone |
| ArrRules.ReturnsOwn | internal/arrbackup/recover.go:29-133 | a version of this job that the failing accesses let through is recorded after recovery, ok and under its name, for ownVersion to return |
| ArrBackup.Run.DropLost | internal/arrbackup/recover.go:345-358 | a row goes only if its version is gone from its name and what a prune left of it, if anything, is known not to hold its files; without failures exactly then, and the trash goes with it |
| ArrRules.LostIff | internal/snapshots/layout.go:252-281 | what counts as lost, from the files that are there: for an ok version the zip of the recorded size, for a failed one any zip of the name |
| ArrBackup.Run.RestoreVersion | internal/snapshots/layout.go:222-253 | touches one version; without failures one that a prune left whole under its trash name alone gets its name back, and any other stays where it is |
| ArrBackup.Run.PruneVersion | internal/arrbackup/recover.go:318-340 | touches one version; without failures its row and files are gone |
| ArrBackup.Run.Prune | internal/arrbackup/recover.go:274-341 | stopped anywhere, each version is in the place its stage allows; the retention gave up exactly the selected ones among those present; without failures exactly the lost versions and those the retention removes are gone, and the others are under their names |
| ArrRules.KeptByPrune | internal/arrbackup/recover.go:274-341 | a prune leaves the row of every ok version it did not select, and a version under its name exactly as it is |
| ArrRules.PruneLosesNone | internal/arrbackup/recover.go:274-341 | every ok version nothing else changed keeps its row or was given up |
| ArrRules.NewestNotGivenUp | internal/arrbackup/recover.go:274-341 | the newest ok version of the integration is never given up |
| ArrBackup.Run.MarkFailed | internal/arrbackup/runner.go:545-558 | the row is replaced by a failed one of the same version; no other row is touched, and the path stays recorded unless the second half fails |
| ArrBackup.Run.AlreadyCopied | internal/arrbackup/runner.go:443-509 | without failures: a copy is returned if and only if the newest row of this backup that is either an ok version that reads back or says that the backup itself is bad is of the first kind, and bad if and only if it is of the second; every damaged ok copy newer than that row is recorded as failed; without either kind it returns none |
| ArrBackup.Run.WriteVersion | internal/arrbackup/runner.go:933-1003 | with nothing overlooked, whatever stops it: one version of this job at most, whole when recorded ok; written to its end it leaves one version if and only if there was none |
| ArrRules.WriteKeepsOneIffNone | internal/arrbackup/runner.go:975-990 | publishing keeps the versions of this job at one if and only if there was none |
| ArrBackup.Run.Finish | internal/arrbackup/recover.go:252-341 | an ok version ends in success, still recorded after the prune, a failed one in failure, unless the process stops; the prune begins in the present state, without failures removes exactly what the retention says, and nothing but what the retention gave up is lost |
| ArrBackup.Run.Attempt | internal/arrbackup/runner.go:868-1003 | one attempt, stopped or failing anywhere: nothing is lost but what its prune gave up. When nothing fails it ends as it should (`ArrRules.EndsAsItShould`): with the version of an earlier attempt if there is one; unchanged exactly if an intact copy of the scheduled backup decides; in an error exactly if the chosen backup cannot be had; otherwise with a new version of the chosen backup, ok exactly if its verification was; and the prune of a success removes exactly what the retention says. A success ends with a version of an earlier attempt that the failing accesses let through, or there was none of these and it ends with a new one; before the prune the job then has two versions if and only if a failing access overlooked the first |
| ArrEnvironment.EventKeeps | internal/snapshots/layout.go:174-297 | what other jobs or other programs do at the destination between two attempts keeps the invariant about every version they do not touch |
| ArrEnvironment.EventKeepsOwn | internal/arrbackup/recover.go:109-143 | an event that is not about this job's version leaves it as it was |
| ArrEnvironment.AfterKeeps | internal/snapshots/layout.go:174-297 | any events in a row keep the invariant about every version they do not touch, and the rows of this integration |
| ArrRuns.NothingLost | internal/arrbackup/recover.go:274-341 | in every run of a job, whatever fails and happens between its attempts: an ok version of the integration recorded when an attempt or its prune begins is recorded the same in the end, unless something else changed it or a prune from then on gave it up |
| ArrRuns.AnOkStays | internal/arrbackup/recover.go:274-341 | if an ok version of the integration was recorded before the job, one is recorded in the end, unless something else changed an ok version that a prune saw |
| ArrRuns.OneVersion | internal/arrbackup/runner.go:868-1003 | a job that succeeds with no harmful failure and no event about its version has exactly one recorded ok version; with no failure in the last attempt the folders are tidy |
| ArrRuns.SecondVersionIff | internal/arrbackup/runner.go:868-1003 | every attempt after undisturbed ones that succeeds, first or resumed: it has recorded a second version, when its row was just added and before the prune, if and only if its failing accesses overlook the one that was there; it ends with one that was there if and only if they let it through |
| ArrRuns.HealthyEnds | internal/arrbackup/runner.go:868-1003 | an attempt in which nothing fails, that is not stopped and can have the chosen backup is the last of its job, which succeeds or is unchanged, or ends with the version of an earlier attempt that failed its verification |
| ArrJob.RunJob | internal/arrbackup/runner.go:868-1003 | a whole job with what fails in each attempt and what happens after it given: any number of attempts, each stopped at any point. It is one of the runs the laws speak of, so nothing is lost but what its prunes gave up, success means exactly one ok version when only time passes between the attempts and no harmful access fails, and an undisturbed job that succeeds has written a second version if and only if the accesses that fail in its last attempt overlook the first; with a healthy attempt it ends there |
| ArrJob.RecoveryLeavesIt | internal/arrbackup/recover.go:93-98 | one manifest that cannot be read makes a resumed attempt overlook its version |
| ArrJob.TwoVersionsOfOneJob | internal/arrbackup/recover.go:93-104 | from an empty destination, that one failure leads to two recorded ok versions of one job: the condition on failures cannot be dropped |

## Left out

Contracts that say less than the code does:

- Refinement.TargetedRefinesFull: group ids are not compared, since the two scans number theirs differently; the soundness of both is `Runs.RunKeepsGroups`. Time stamps differ as well.
- Scanner.ScanRun.Run: progress, warnings, message texts, `last_scan_status` and the counter of excluded entries are not modelled.
- Scanner.ScanRun.RunTargets: takes the canonical list, and does not count what dropped targets skipped.
- Scanner.ScanRun.WalkTarget: a lookup that succeeds under another spelling of a name counts as not listed, as the code has it; in a folder that opens but cannot be listed, a failing lookup of the next name drops the target.
- Scanner.ScanRun.BuildGroups: the comparison of head and tail hashes that confirms a group on FUSE is a parameter.
- SourceLock.SourceLocks.AcquireLock: that a waiting call is served at last depends on the fairness of channels and is not promised.
- VersionGate.VersionGates.Enter: waits as many rounds as its caller gives; the code waits until its context ends.
- RootIdentity.SourceRow.Save: the validation of names and folders, and whether a path holds the catalogued files, are answers given to the model.
- LimiterUndo.UndoTakesItsOwn: needs clock readings that differ, since the code finds a record by its time; with equal readings another attempt's record of the same key may go in its place, which counts the same.
- SignIns.Registry.SaveWith: the mutex that orders the requests about one sign-in is left out, which allows more interleavings than the code has; ids are taken as new.
- ArrBackup.Run.WriteVersion: a version's name is its time. The clock moves on whenever it is read, so the suffix that the code adds to a name already taken does not occur.
- ArrBackup.Run.Attempt: an access other than those `ArrRules.Access` names may fail at any time when `Other` is among the failing ones, and a named one fails whenever it is made in that attempt.

Not modelled:

- Row ids of the catalog (rows are known by their path, unique in a source), failures to stat an opened file, ESTALE retries, the statements inside one transaction, and the overflow of 64-bit SQL sums. Scans are taken to carry a time stamp that no row has yet.
- Files that appear, change or vanish while a scan walks: a scan sees one tree.
- Folders whose stat does not change with their entries (a union of branches): the listing cache is proved for disks that stamp every change of a folder.
- Parsing of client addresses into limiter keys, of ISO weeks in time zones (a parameter of the retention), of JSON manifests and of zip directories.
- Read errors of a zip file, and the contents of its entries.
- Which of the backups an application lists is the newest young scheduled one, and creating, polling and downloading one, are answers given to an attempt (`ArrRules.Offer`); staging, job items, renamed integration folders and the fallback for a deleted integration during a job are left out.
- The restic and rclone engines, sync jobs, Plex database backups, manifest exports, webhook queueing and the HTTP layer.
