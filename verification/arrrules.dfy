/** What the *arr backup job (internal/arrbackup/runner.go, recover.go) may do with the versions of its
    integration, and what that keeps: the relations its methods are proved against. */
module ArrRules {
  import opened Wrappers
  import opened ArrVersions
  import Retention

  /** The integration as a job sees it; folder is where it writes now. */
  datatype Integration = Integration(id: int, app: int, folder: Folder)

  /** What a job works with; history: the jobs of this integration in the database. */
  datatype Setting = Setting(it: Integration, job: Job, history: set<Job>, daily: int, weekly: int)

  /** Crashed: the process stopped; nothing more happens in this attempt. */
  datatype Res = Done | Failed | Crashed

  /** What an attempt reads or writes and may fail at: the folder and the version recover looks at, the
      version's manifest, the job a manifest names, the row of a version recovery adopts, its zip, the directory
      ownVersion looks at, the row markFailed puts back; Other is everything else. */
  datatype Access =
    | Enter(folder: Folder)
    | Stat(v: VersionPath)
    | ReadManifest(v: VersionPath)
    | FindJob(v: VersionPath)
    | AddRow(v: VersionPath)
    | ReadZip(v: VersionPath)
    | Look(v: VersionPath)
    | ReplaceRow(v: VersionPath)
    | Other

  /** What the *arr gives an attempt: scheduled is its newest scheduled backup when that is young enough, made the
      backup it makes or has made for this job; fetched: the chosen one arrives and can be checked, with the
      verdict ok and the file zip. */
  datatype Offer = Offer(scheduled: Option<Backup>, made: Option<Backup>, fetched: bool, ok: bool, zip: Zip)

  /** What an attempt meets: the accesses that fail, what the *arr gives, and whether the process may stop. */
  datatype Input = Input(broken: set<Access>, offer: Offer, stops: bool)

  /** No failing access keeps a version from being recorded or found. */
  predicate Harmless(broken: set<Access>) {
    forall a :: a in broken ==> a.ReadZip? || a.Other?
  }

  /** Of the failures from a to b, there are none when nothing is broken. */
  predicate Counted(broken: set<Access>, a: nat, b: nat) {
    a <= b && (broken == {} ==> b == a)
  }

  function FolderOf(n: DirName): Folder {
    match n
    case Partial(f, _) => f
    case Version(v) => v.folder
    case Trash(v) => v.folder
  }

  predicate Mine(s: Setting, n: DirName) {
    FolderOf(n).id == s.it.id
  }

  /** writtenHere. */
  predicate WrittenHere(s: Setting, m: Manifest) {
    && m.job.Some? && m.job.value.id > 0
    && (m.job.value == s.job || (m.job.value.id != s.job.id && m.job.value in s.history))
  }

  /** An unrecorded version recovery records: it belongs to this integration. */
  predicate Adoptable(s: Setting, v: VersionPath, d: Dir) {
    && d.manifest.Good?
    && d.manifest.m.integration == s.it.id && d.manifest.m.app == s.it.app
    && (v.folder == s.it.folder || WrittenHere(s, d.manifest.m))
    && d.manifest.m.zipName.Some?
  }

  /** Nothing is left for recovery to do about n. */
  predicate Settled(s: Setting, w: World, n: DirName) {
    n in w.dirs && Mine(s, n) ==>
      match n
      case Partial(_, _) => false
      case Trash(v) => Recorded(w, v)
      case Version(v) => Recorded(w, v) || !Adoptable(s, v, w.dirs[n])
  }

  ghost predicate Clean(s: Setting, w: World) {
    forall n :: n in w.dirs ==> Settled(s, w, n)
  }

  /** Rows only came, of versions recovery may record, and directories only went. */
  ghost predicate Recovering(s: Setting, before: World, w: World) {
    && w.now >= before.now
    && (forall i :: i in before.rows ==> i in w.rows && w.rows[i] == before.rows[i])
    && (forall i :: i in w.rows && i !in before.rows ==> Adopted(s, before, w.rows[i]))
    && (forall n :: n in w.dirs ==> n in before.dirs && PartOf(w.dirs[n], before.dirs[n]))
    && (forall n :: n in before.dirs && (n.Version? || (n.Trash? && Recorded(before, n.v))) ==>
      n in w.dirs && w.dirs[n] == before.dirs[n])
  }

  /** A row recovery may add: ok only when the manifest says so and the zip is the manifest's. */
  predicate Adopted(s: Setting, w: World, row: Row) {
    && Mine(s, Version(row.path))
    && Version(row.path) in w.dirs && !Recorded(w, row.path)
    && Adoptable(s, row.path, w.dirs[Version(row.path)])
    && row.integration == s.it.id
    && row.manifest == Some(w.dirs[Version(row.path)].manifest.m)
    && (match row.manifest.value.createdAt
        case Some(t) => row.createdAt == t
        case None => row.createdAt >= w.now)
    && (row.ok ==> row.manifest.value.ok && Whole(w.dirs[Version(row.path)], row.manifest.value))
  }

  /** The directory n is as it was, partly removed, or gone. */
  predicate Removing(before: World, w: World, n: DirName) {
    || w == before
    || w == Drop(before, n)
    || (n in before.dirs && n in w.dirs && PartOf(w.dirs[n], before.dirs[n]) && w == Put(before, n, w.dirs[n]))
  }

  /** adopt recorded v. */
  ghost predicate Grew(s: Setting, before: World, w: World, v: VersionPath) {
    && before.nextRow in w.rows
    && w.rows == before.rows[before.nextRow := w.rows[before.nextRow]]
    && w.rows[before.nextRow].path == v
    && Adopted(s, before, w.rows[before.nextRow])
  }

  /** What recovery did about one name. */
  ghost predicate RecoveredName(s: Setting, before: World, w: World, n: DirName) {
    && w.now >= before.now
    && (w.rows == before.rows || (n.Version? && Grew(s, before, w, n.v)))
    && (forall k :: k in w.dirs ==> k in before.dirs && PartOf(w.dirs[k], before.dirs[k]))
    && (forall k :: k in before.dirs && (k != n || k.Version? || (k.Trash? && Recorded(before, k.v))) ==>
      k in w.dirs && w.dirs[k] == before.dirs[k])
  }

  lemma RecordedGrows(s: Setting, before: World, w: World, n: DirName, v: VersionPath)
    requires RowsDistinct(before) && RecoveredName(s, before, w, n) && Recorded(before, v)
    ensures Recorded(w, v)
  {
    var i :| i in before.rows && before.rows[i].path == v;
    assert i in w.rows && w.rows[i].path == v;
  }

  lemma SettledStays(s: Setting, before: World, w: World, n: DirName, k: DirName)
    requires RowsDistinct(before) && RecoveredName(s, before, w, n) && k != n && Settled(s, before, k)
    ensures Settled(s, w, k)
  {
    if !k.Partial? && Recorded(before, k.v) {
      RecordedGrows(s, before, w, n, k.v);
    }
  }

  lemma RecoveringOn(s: Setting, before: World, mid: World, w: World, n: DirName)
    requires RowsDistinct(mid) && Recovering(s, before, mid) && RecoveredName(s, mid, w, n)
    ensures Recovering(s, before, w)
  {
    forall v | Recorded(before, v) ensures Recorded(mid, v) {
      var i :| i in before.rows && before.rows[i].path == v;
      assert i in mid.rows && mid.rows[i].path == v;
    }
    forall i | i in w.rows && i !in before.rows ensures Adopted(s, before, w.rows[i]) {
      if i in mid.rows {
        assert w.rows[i] == mid.rows[i];
      }
    }
  }

  /** The job j wrote versions of this integration, this one or one in the database. */
  predicate IsOurs(s: Setting, j: Job) {
    j.id > 0 && if j.id == s.job.id then j == s.job else j in s.history
  }

  /** The manifest of the version at v says that it belongs to this integration, and which zip it holds; in another
      folder than the one written to now it must also name one of its jobs. */
  ghost predicate BelongsHere(s: Setting, v: VersionPath, d: Dir) {
    exists m: Manifest ::
      && d.manifest == Good(m) && m.integration == s.it.id && m.app == s.it.app && m.zipName.Some?
      && (v.folder != s.it.folder ==> m.job.Some? && IsOurs(s, m.job.value))
  }

  /** What a recovery without failures does about each name of this integration: an unrecorded version is recorded
      exactly if it belongs here, and exactly partial directories and unrecorded trash go. */
  lemma RecoveredIff(s: Setting, before: World, w: World, n: DirName)
    requires Recovering(s, before, w) && Clean(s, w) && NoTwins(before) && n in before.dirs && Mine(s, n)
    ensures n.Version? && !Recorded(before, n.v) ==> (Recorded(w, n.v) <==> BelongsHere(s, n.v, before.dirs[n]))
    ensures n in w.dirs <==> n.Version? || (n.Trash? && Recorded(before, n.v))
  {
    assert n in w.dirs ==> Settled(s, w, n);
    forall i | i in w.rows && i !in before.rows
      ensures Version(w.rows[i].path) in before.dirs && Trash(w.rows[i].path) !in before.dirs
    {
      assert Adopted(s, before, w.rows[i]);
    }
    if n.Version? && !Recorded(before, n.v) && Recorded(w, n.v) {
      var i :| i in w.rows && w.rows[i].path == n.v;
      assert Adopted(s, before, w.rows[i]);
    }
  }

  /** ListFor, in any order. */
  function Listed(s: Setting, w: World): set<RowId> {
    set i | i in w.rows && w.rows[i].integration == s.it.id
  }

  /** A version ownVersion may return. */
  predicate IsOwn(s: Setting, w: World, i: RowId) {
    && i in Listed(s, w) && RowNames(w.rows[i], s.job) && Version(w.rows[i].path) in w.dirs
    && (w.rows[i].ok || !w.rows[i].manifest.value.ok)
  }

  datatype Check = Complete | Incomplete | Unknown

  /** The recorded manifest says which zip to look for. */
  predicate Readable(row: Row) {
    row.manifest.Some? && row.manifest.value.zipName.Some?
  }

  /** checkComplete: sizes are compared for an ok version only. */
  function CheckComplete(d: Dir, row: Row): Check {
    if !Readable(row) then Unknown
    else
      var m := row.manifest.value;
      if d.manifest.NoManifest? || m.zipName.value !in d.zips then Incomplete
      else if row.ok && d.zips[m.zipName.value].size != m.zip.size then Incomplete
      else Complete
  }

  /** VersionLost. */
  predicate Lost(w: World, row: Row) {
    && Version(row.path) !in w.dirs
    && (Trash(row.path) in w.dirs ==> CheckComplete(w.dirs[Trash(row.path)], row) == Incomplete)
  }

  /** The directory d holds a manifest and the zip that row records, of its size if the version is ok. */
  predicate HasFiles(d: Dir, row: Row) {
    && Readable(row) && !d.manifest.NoManifest? && row.manifest.value.zipName.value in d.zips
    && (row.ok ==> d.zips[row.manifest.value.zipName.value].size == row.manifest.value.zip.size)
  }

  /** The version of row is gone: it has left its name, and what a prune left of it, if anything, is known not to
      hold its files. */
  predicate IsGone(w: World, row: Row) {
    && Version(row.path) !in w.dirs
    && (Trash(row.path) !in w.dirs || (Readable(row) && !HasFiles(w.dirs[Trash(row.path)], row)))
  }

  /** A prune left the version of row i whole, under its trash name alone. */
  predicate CanBeRestored(w: World, i: RowId)
    requires i in w.rows
  {
    && Version(w.rows[i].path) !in w.dirs && Trash(w.rows[i].path) in w.dirs
    && HasFiles(w.dirs[Trash(w.rows[i].path)], w.rows[i])
  }

  /** It has its name back. */
  predicate IsRestored(before: World, w: World, i: RowId)
    requires i in before.rows
  {
    CanBeRestored(before, i) && w == Move(before, Trash(before.rows[i].path), Version(before.rows[i].path))
  }

  lemma LostIff(w: World, row: Row)
    ensures Lost(w, row) <==> IsGone(w, row)
    ensures forall d :: CheckComplete(d, row) == Complete <==> HasFiles(d, row)
  {
  }

  /** A recorded ok version is not lost unless something else changed it. */
  lemma KeptIsNotLost(w: World, spoiled: set<VersionPath>, i: RowId)
    requires Inv(w, spoiled) && i in w.rows && w.rows[i].ok && w.rows[i].path !in spoiled
    ensures !Lost(w, w.rows[i])
  {
    assert Kept(w, w.rows[i]);
  }

  lemma NotRecorded(w: World, i: RowId)
    requires RowsDistinct(w) && i in w.rows
    ensures !Recorded(Unrecord(w, i), w.rows[i].path)
  {
  }

  predicate SameAt(a: World, b: World, n: DirName) {
    (n in a.dirs <==> n in b.dirs) && (n in a.dirs ==> a.dirs[n] == b.dirs[n])
  }

  predicate PartOfOld(before: World, d: Dir, n: DirName) {
    n in before.dirs && PartOf(d, before.dirs[n])
  }

  /** What is under one of a version's two names was there before, under either, perhaps with more in it. */
  predicate CameFrom(before: World, w: World, n: DirName)
    requires n in w.dirs
  {
    || PartOfOld(before, w.dirs[n], n)
    || (n.Version? && PartOfOld(before, w.dirs[n], Trash(n.v)))
    || (n.Trash? && PartOfOld(before, w.dirs[n], Version(n.v)))
  }

  lemma CameFromOn(a: World, b: World, c: World, n: DirName)
    requires n in c.dirs && CameFrom(b, c, n) && forall k :: k in b.dirs ==> CameFrom(a, b, k)
    ensures CameFrom(a, c, n)
  {
    if n in b.dirs && PartOf(c.dirs[n], b.dirs[n]) {
      assert CameFrom(a, b, n);
    } else {
      var other := if n.Version? then Trash(n.v) else Version(n.v);
      assert other in b.dirs && CameFrom(a, b, other);
    }
  }

  /** Only row i and the directories of its version changed; without its row the version's name is gone. */
  ghost predicate OnlyTouches(before: World, w: World, i: RowId) {
    && i in before.rows && w.now == before.now && w.nextRow == before.nextRow
    && (forall j :: j in w.rows ==> j in before.rows && w.rows[j] == before.rows[j])
    && (forall j :: j in before.rows && j != i ==> j in w.rows)
    && (forall n :: n != Version(before.rows[i].path) && n != Trash(before.rows[i].path) ==> SameAt(before, w, n))
    && (i !in w.rows ==> Version(before.rows[i].path) !in w.dirs)
    && (forall n :: n in w.dirs ==> CameFrom(before, w, n))
  }

  lemma TouchesTwice(a: World, b: World, c: World, i: RowId)
    requires OnlyTouches(a, b, i) && OnlyTouches(b, c, i) && i in b.rows
    ensures OnlyTouches(a, c, i)
  {
    forall n | n != Version(a.rows[i].path) && n != Trash(a.rows[i].path) ensures SameAt(a, c, n) {
      assert SameAt(a, b, n) && SameAt(b, c, n);
    }
    forall n | n in c.dirs ensures CameFrom(a, c, n) {
      CameFromOn(a, b, c, n);
    }
  }

  lemma RemovedAfterRow(before: World, mid: World, w: World, i: RowId)
    requires i in before.rows && mid == Unrecord(before, i) && Version(before.rows[i].path) !in before.dirs
    requires Removing(mid, w, Trash(before.rows[i].path))
    ensures OnlyTouches(before, w, i) && i !in w.rows
  {
  }

  /** The directory belongs to the version of one of the rows. */
  ghost predicate About(w: World, ids: set<RowId>, n: DirName) {
    !n.Partial? && exists j :: j in ids && j in w.rows && w.rows[j].path == n.v
  }

  /** Only these rows and the directories of their versions changed; without its row a version's name
      is gone. */
  ghost predicate Touched(before: World, w: World, ids: set<RowId>) {
    && w.now == before.now && w.nextRow == before.nextRow
    && (forall j :: j in w.rows ==> j in before.rows && w.rows[j] == before.rows[j])
    && (forall j :: j in before.rows && j !in ids ==> j in w.rows)
    && (forall n :: !About(before, ids, n) ==> SameAt(before, w, n))
    && (forall j :: j in before.rows && j !in w.rows ==> Version(before.rows[j].path) !in w.dirs)
    && (forall n :: n in w.dirs ==> CameFrom(before, w, n))
  }

  ghost predicate Untouched(before: World, w: World, i: RowId) {
    && i in before.rows && i in w.rows && w.rows[i] == before.rows[i]
    && SameAt(before, w, Version(before.rows[i].path)) && SameAt(before, w, Trash(before.rows[i].path))
  }

  lemma TouchedOne(before: World, mid: World, w: World, ids: set<RowId>, i: RowId)
    requires RowsDistinct(before) && Touched(before, mid, ids) && OnlyTouches(mid, w, i) && i in ids
    ensures Touched(before, w, ids)
    ensures forall j :: j != i && Untouched(before, mid, j) ==> Untouched(before, w, j)
  {
    assert i in before.rows && mid.rows[i] == before.rows[i];
    forall n | !About(before, ids, n) ensures SameAt(before, w, n) {
      assert SameAt(before, mid, n);
      assert !n.Partial? ==> n.v != before.rows[i].path;
      assert SameAt(mid, w, n);
    }
    forall n | n in w.dirs ensures CameFrom(before, w, n) {
      CameFromOn(before, mid, w, n);
    }
    forall j | j != i && Untouched(before, mid, j) ensures Untouched(before, w, j) {
      assert before.rows[j].path != before.rows[i].path;
      assert SameAt(mid, w, Version(before.rows[j].path)) && SameAt(mid, w, Trash(before.rows[j].path));
    }
    forall j | j in before.rows && j !in w.rows ensures Version(before.rows[j].path) !in w.dirs {
      if j != i {
        assert j !in mid.rows;
        assert before.rows[j].path != before.rows[i].path;
        assert SameAt(mid, w, Version(before.rows[j].path));
      }
    }
  }

  lemma SameElsewhere(before: World, mid: World, w: World, ids: set<RowId>, i: RowId, j: RowId)
    requires RowsDistinct(before) && Touched(before, mid, ids) && OnlyTouches(mid, w, i) && j != i && j in before.rows
    ensures SameAt(mid, w, Version(before.rows[j].path)) && SameAt(mid, w, Trash(before.rows[j].path))
    ensures j in w.rows <==> j in mid.rows
  {
    assert i in before.rows && mid.rows[i] == before.rows[i];
    assert before.rows[j].path != before.rows[i].path;
  }

  function View(i: RowId, row: Row): Retention.Version {
    Retention.Version(i, row.createdAt, row.ok)
  }

  ghost predicate CandsAre(cands: seq<Retention.Version>, w: World, present: set<RowId>) {
    && Retention.Distinct(cands)
    && (forall v :: v in cands ==> v.id in present && v.id in w.rows && v == View(v.id, w.rows[v.id]))
    && (forall i :: i in present ==> i in w.rows && View(i, w.rows[i]) in cands)
  }

  lemma CandsGrow(cands: seq<Retention.Version>, w: World, present: set<RowId>, i: RowId)
    requires CandsAre(cands, w, present) && i !in present && i in w.rows
    ensures CandsAre(cands + [View(i, w.rows[i])], w, present + {i})
  {
    var v := View(i, w.rows[i]);
    assert forall j :: 0 <= j < |cands| ==> cands[j] in cands;
    assert v in cands + [v];
    forall u | u in cands ensures u in cands + [v] {
    }
  }

  /** Where DropAllLost stands with row i; clean: no access failed so far. */
  ghost predicate DropStatus(before: World, w: World, rest: set<RowId>, present: set<RowId>, clean: bool, i: RowId)
    requires i in before.rows
  {
    if i in rest then Untouched(before, w, i)
    else if i in present then Untouched(before, w, i) && (clean ==> !Lost(before, before.rows[i]))
    else
      && Lost(before, before.rows[i])
      && (clean ==> i !in w.rows && Trash(before.rows[i].path) !in w.dirs)
  }

  ghost predicate Dropping(before: World, w: World, ids: set<RowId>, rest: set<RowId>, present: set<RowId>,
      clean: bool)
  {
    && rest <= ids && present <= ids && rest !! present
    && forall i :: i in ids ==> i in before.rows && DropStatus(before, w, rest, present, clean, i)
  }

  lemma DroppingOn(before: World, mid: World, w: World, ids: set<RowId>, rest: set<RowId>, present: set<RowId>,
                   clean: bool, i: RowId, dropped: bool, clean': bool)
    requires RowsDistinct(before) && Touched(before, mid, ids) && OnlyTouches(mid, w, i)
    requires Dropping(before, mid, ids, rest, present, clean) && i in rest && (clean' ==> clean)
    requires if dropped then Lost(mid, mid.rows[i]) else w == mid
    requires clean' ==>
      if dropped then i !in w.rows && Trash(mid.rows[i].path) !in w.dirs else !Lost(mid, mid.rows[i])
    ensures Dropping(before, w, ids, rest - {i}, if dropped then present else present + {i}, clean')
  {
    forall j | j in ids
      ensures DropStatus(before, w, rest - {i}, if dropped then present else present + {i}, clean', j)
    {
      assert DropStatus(before, mid, rest, present, clean, j);
      assert DropStatus(before, mid, rest, present, clean, i);
      if j != i {
        SameElsewhere(before, mid, w, ids, i, j);
      }
    }
  }

  ghost predicate KeptStatus(before: World, w: World, clean: bool, i: RowId)
    requires i in before.rows
  {
    && i in w.rows && w.rows[i] == before.rows[i]
    && (Version(before.rows[i].path) in before.dirs ==> Untouched(before, w, i))
    && (clean ==> Version(before.rows[i].path) in w.dirs || !Readable(before.rows[i]))
  }

  predicate GoneFrom(before: World, w: World, i: RowId)
    requires i in before.rows
  {
    i !in w.rows && Trash(before.rows[i].path) !in w.dirs
  }

  /** Where prune stands with row i: not present ones were lost; of the others those in gone go, the rest
      stay; toRestore and toPrune are still to come; clean: no access failed so far. */
  ghost predicate PruneStatus(before: World, w: World, present: set<RowId>, gone: set<RowId>,
                              toRestore: set<RowId>, toPrune: set<RowId>, clean: bool, i: RowId)
    requires i in before.rows
  {
    if i !in present then Lost(before, before.rows[i]) && (clean ==> GoneFrom(before, w, i))
    else if i in gone then (if i in toPrune then Untouched(before, w, i) else clean ==> GoneFrom(before, w, i))
    else if i in toRestore then Untouched(before, w, i) && (clean ==> !Lost(before, before.rows[i]))
    else KeptStatus(before, w, clean, i)
  }

  ghost predicate Pruning(before: World, w: World, ids: set<RowId>, present: set<RowId>, gone: set<RowId>,
                          toRestore: set<RowId>, toPrune: set<RowId>, clean: bool) {
    forall i :: i in ids ==> i in before.rows && PruneStatus(before, w, present, gone, toRestore, toPrune, clean, i)
  }

  lemma DroppedSoFar(before: World, w: World, ids: set<RowId>, rest: set<RowId>, present: set<RowId>, clean: bool)
    requires Dropping(before, w, ids, rest, present, clean) || Dropping(before, w, ids, rest, present, false)
    ensures Pruning(before, w, ids, present + rest, {}, present + rest, {}, false)
  {
    forall i | i in ids
      ensures i in before.rows && PruneStatus(before, w, present + rest, {}, present + rest, {}, false, i)
    {
      assert DropStatus(before, w, rest, present, clean, i) || DropStatus(before, w, rest, present, false, i);
    }
  }

  lemma DroppedNow(before: World, w: World, ids: set<RowId>, present: set<RowId>, gone: set<RowId>, clean: bool)
    requires Dropping(before, w, ids, {}, present, clean) && gone <= present
    ensures Pruning(before, w, ids, present, gone, present - gone, gone, clean)
  {
    forall i | i in ids
      ensures i in before.rows && PruneStatus(before, w, present, gone, present - gone, gone, clean, i)
    {
      assert DropStatus(before, w, {}, present, clean, i);
    }
  }

  lemma StillThere(before: World, w: World, present: set<RowId>, gone: set<RowId>,
                   toRestore: set<RowId>, toPrune: set<RowId>, clean: bool, s: Setting, i: RowId)
    requires Pruning(before, w, Listed(s, before), present, gone, toRestore, toPrune, clean)
    requires i in Listed(s, before) && i in present && ((i in toRestore && i !in gone) || (i in toPrune && i in gone))
    ensures i in w.rows && w.rows[i] == before.rows[i] && Untouched(before, w, i)
  {
    assert PruneStatus(before, w, present, gone, toRestore, toPrune, clean, i);
  }

  lemma RestoringOn(before: World, mid: World, w: World, ids: set<RowId>, present: set<RowId>, gone: set<RowId>,
                    rest: set<RowId>, clean: bool, i: RowId, clean': bool)
    requires RowsDistinct(before) && Touched(before, mid, ids) && OnlyTouches(mid, w, i) && i in ids
    requires Pruning(before, mid, ids, present, gone, rest, gone, clean) && (clean' ==> clean)
    requires i in rest && i in present && i !in gone && Untouched(before, mid, i) && i in w.rows
    requires Version(before.rows[i].path) in mid.dirs ==> w == mid
    requires clean' && !Lost(mid, before.rows[i]) && Readable(before.rows[i]) ==>
      Version(before.rows[i].path) in w.dirs
    ensures Pruning(before, w, ids, present, gone, rest - {i}, gone, clean')
  {
    forall j | j in ids ensures PruneStatus(before, w, present, gone, rest - {i}, gone, clean', j) {
      assert PruneStatus(before, mid, present, gone, rest, gone, clean, j);
      if j != i {
        SameElsewhere(before, mid, w, ids, i, j);
      }
    }
  }

  function IdsOf(ids: seq<RowId>): set<RowId> {
    set i | i in ids
  }

  lemma IdsAfter(ids: seq<RowId>, k: nat)
    requires k < |ids| && forall i, j :: 0 <= i < j < |ids| ==> ids[i] != ids[j]
    ensures ids[k] in IdsOf(ids[k..]) && IdsOf(ids[k + 1..]) == IdsOf(ids[k..]) - {ids[k]}
  {
    assert ids[k..] == [ids[k]] + ids[k + 1..];
    assert forall i :: i in ids[k..] <==> i == ids[k] || i in ids[k + 1..];
  }

  lemma PruningOn(before: World, mid: World, w: World, ids: set<RowId>, present: set<RowId>, gone: set<RowId>,
                  left: set<RowId>, clean: bool, i: RowId, clean': bool)
    requires RowsDistinct(before) && Touched(before, mid, ids) && OnlyTouches(mid, w, i) && i in ids
    requires Pruning(before, mid, ids, present, gone, {}, left, clean) && (clean' ==> clean)
    requires i in left && i in present && i in gone && Untouched(before, mid, i)
    requires clean' ==> GoneFrom(before, w, i)
    ensures Pruning(before, w, ids, present, gone, {}, left - {i}, clean')
  {
    forall j | j in ids ensures PruneStatus(before, w, present, gone, {}, left - {i}, clean', j) {
      assert PruneStatus(before, mid, present, gone, {}, left, clean, j);
      if j != i {
        SameElsewhere(before, mid, w, ids, i, j);
      }
    }
  }

  /** cands shows the rows present, and gone are those the retention removes. */
  ghost predicate GivenUp(s: Setting, week: Retention.Time -> Retention.Week, w: World, cands: seq<Retention.Version>,
                          present: set<RowId>, gone: set<RowId>) {
    gone != {} ==>
      CandsAre(cands, w, present)
      && forall i :: i in gone <==>
        i in present && Retention.Removed(cands, View(i, w.rows[i]), s.daily, s.weekly, week, w.now)
  }

  lemma RemovedAreThere(s: Setting, week: Retention.Time -> Retention.Week, w: World, cands: seq<Retention.Version>,
                        present: set<RowId>, remove: seq<Retention.VersionId>, removed: seq<Retention.Version>)
    requires CandsAre(cands, w, present)
    requires |remove| == |removed| && forall i :: 0 <= i < |removed| ==> remove[i] == removed[i].id
    requires forall v :: v in removed <==> v in cands && Retention.Removed(cands, v, s.daily, s.weekly, week, w.now)
    requires forall i, j :: 0 <= i < j < |removed| ==> Retention.Newer(removed[j], removed[i])
    ensures forall i :: i in remove <==>
      i in present && Retention.Removed(cands, View(i, w.rows[i]), s.daily, s.weekly, week, w.now)
    ensures forall i, j :: 0 <= i < j < |remove| ==> remove[i] != remove[j]
  {
    forall i | i in remove ensures i in present && View(i, w.rows[i]) in removed {
      var k :| 0 <= k < |remove| && remove[k] == i;
      assert removed[k] in removed;
    }
    forall i | i in present && View(i, w.rows[i]) in removed ensures i in remove {
      var k :| 0 <= k < |removed| && removed[k] == View(i, w.rows[i]);
      assert remove[k] == i;
    }
    forall i, j | 0 <= i < j < |remove| ensures remove[i] != remove[j] {
      assert removed[i] in cands && removed[j] in cands;
    }
  }

  // ---- What a prune without a failed access leaves ----

  /** Of the rows it began with, the prune kept those that are not gone from the destination and that the retention,
      looking at these, does not remove. */
  ghost predicate PrunedRight(s: Setting, week: Retention.Time -> Retention.Week, before: World,
      cands: seq<Retention.Version>, present: set<RowId>, gone: set<RowId>, w: World)
  {
    && CandsAre(cands, before, present) && gone <= present <= Listed(s, before)
    && (forall i :: i in Listed(s, before) ==> (i in present <==> !IsGone(before, before.rows[i])))
    && (forall i :: i in present ==>
      (i in gone <==> Retention.Removed(cands, View(i, before.rows[i]), s.daily, s.weekly, week, before.now)))
    && (forall i :: i in Listed(s, before) ==> (i in w.rows <==> i in present && i !in gone))
  }

  lemma PrunedRightAtEnd(s: Setting, week: Retention.Time -> Retention.Week, before: World,
      cands: seq<Retention.Version>, present: set<RowId>, gone: set<RowId>, w: World)
    requires Pruning(before, w, Listed(s, before), present, gone, {}, {}, true) && CandsAre(cands, before, present)
    requires gone <= present <= Listed(s, before)
    requires forall i :: i in present ==> !Lost(before, before.rows[i])
    requires forall i :: i in present ==>
      (i in gone <==> Retention.Removed(cands, View(i, before.rows[i]), s.daily, s.weekly, week, before.now))
    ensures PrunedRight(s, week, before, cands, present, gone, w)
  {
    forall i | i in Listed(s, before)
      ensures i in present <==> !IsGone(before, before.rows[i])
      ensures i in w.rows <==> i in present && i !in gone
    {
      assert PruneStatus(before, w, present, gone, {}, {}, true, i);
      LostIff(before, before.rows[i]);
    }
  }

  /** No unfinished version, no trash but that of a row of another integration or of one whose manifest is
      unreadable, a row for every version recovery would record, and a version for every readable row. */
  ghost predicate Tidy(s: Setting, w: World) {
    && (forall n :: n in w.dirs && Mine(s, n) ==> TidyAt(s, w, n))
    && (forall i :: i in Listed(s, w) && Readable(w.rows[i]) ==> Version(w.rows[i].path) in w.dirs)
  }

  ghost predicate TidyAt(s: Setting, w: World, n: DirName)
    requires n in w.dirs
  {
    match n
    case Partial(_, _) => false
    case Trash(v) => exists j :: j in w.rows && (j !in Listed(s, w) || !Readable(w.rows[j])) && w.rows[j].path == v
    case Version(v) => Recorded(w, v) || !Adoptable(s, v, w.dirs[n])
  }

  lemma TidyAfterPrune(s: Setting, before: World, w: World, present: set<RowId>, gone: set<RowId>)
    requires Clean(s, before) && NoTwins(w) && Touched(before, w, Listed(s, before))
    requires Pruning(before, w, Listed(s, before), present, gone, {}, {}, true)
    ensures Tidy(s, w)
  {
    var ids := Listed(s, before);
    forall n | n in w.dirs && Mine(s, n) ensures TidyAt(s, w, n) {
      if About(before, ids, n) {
        var j :| j in ids && j in before.rows && before.rows[j].path == n.v;
        assert PruneStatus(before, w, present, gone, {}, {}, true, j);
      } else {
        assert SameAt(before, w, n) && Settled(s, before, n);
        if !n.Partial? && Recorded(before, n.v) {
          var j :| j in before.rows && before.rows[j].path == n.v;
          assert j !in ids && j in w.rows && w.rows[j] == before.rows[j];
        }
      }
    }
    forall i | i in Listed(s, w) && Readable(w.rows[i]) ensures Version(w.rows[i].path) in w.dirs {
      assert i in ids && PruneStatus(before, w, present, gone, {}, {}, true, i);
    }
  }

  /** A version the retention did not give up and nothing else changed keeps its row, and its name. */
  lemma KeptByPrune(s: Setting, week: Retention.Time -> Retention.Week, spoiled: set<VersionPath>, before: World,
      w: World, present: set<RowId>, gone: set<RowId>, toRestore: set<RowId>, toPrune: set<RowId>, clean: bool,
      i: RowId)
    requires Inv(before, spoiled) && Pruning(before, w, Listed(s, before), present, gone, toRestore, toPrune, clean)
    requires i in Listed(s, before) && i !in gone && before.rows[i].ok && before.rows[i].path !in spoiled
    ensures i in w.rows && w.rows[i] == before.rows[i]
    ensures Version(before.rows[i].path) in before.dirs ==> Untouched(before, w, i)
  {
    KeptIsNotLost(before, spoiled, i);
    assert PruneStatus(before, w, present, gone, toRestore, toPrune, clean, i);
  }

  /** The newest ok version of the integration is never given up. */
  lemma NewestNotGivenUp(s: Setting, week: Retention.Time -> Retention.Week, w: World, cands: seq<Retention.Version>,
                         present: set<RowId>, gone: set<RowId>, i: RowId)
    requires GivenUp(s, week, w, cands, present, gone) && present <= Listed(s, w) && i in w.rows && w.rows[i].ok
    requires forall j :: j in Listed(s, w) && j != i ==> w.rows[j].createdAt < w.rows[i].createdAt
    ensures i !in gone
  {
    if i in gone {
      var v := View(i, w.rows[i]);
      assert v in cands;
      forall u | u in cands && u.ok ensures u == v || Retention.Newer(v, u) {
        assert u == View(u.id, w.rows[u.id]);
      }
      Retention.NewestOkKept(cands, v, s.daily, s.weekly, week, w.now);
    }
  }

  // ---- The version this job wrote ----

  /** An ok version of job: recorded, or complete and waiting to be recorded. */
  predicate OkRowOf(w: World, job: Job, v: VersionPath) {
    exists i :: i in w.rows && w.rows[i].ok && w.rows[i].path == v && RowNames(w.rows[i], job)
  }

  predicate Claim(w: World, job: Job, v: VersionPath) {
    OkRowOf(w, job, v) || (Version(v) in w.dirs && !Recorded(w, v) && DirNames(w.dirs[Version(v)], job))
  }

  /** job has written one version at most, and none of what names it was spoiled. */
  ghost predicate OneClaim(w: World, job: Job, spoiled: set<VersionPath>) {
    && (forall u, v :: Claim(w, job, u) && Claim(w, job, v) ==> u == v)
    && (forall i :: i in w.rows && RowNames(w.rows[i], job) ==> w.rows[i].path !in spoiled)
    && (forall n :: n in w.dirs && !n.Partial? && DirNames(w.dirs[n], job) ==> n.v !in spoiled)
  }

  /** An ok version this job recorded: under its name, and newer than every other. */
  ghost predicate OwnRowOk(s: Setting, w: World, i: RowId)
    requires i in w.rows
  {
    && w.rows[i].integration == s.it.id && Version(w.rows[i].path) in w.dirs
    && forall j :: j in Listed(s, w) && j != i ==> w.rows[j].createdAt < w.rows[i].createdAt
  }

  /** One it wrote and has not recorded: recovery would record it, as newer than every other. */
  ghost predicate WaitingOk(s: Setting, w: World, v: VersionPath)
    requires Version(v) in w.dirs
  {
    var d := w.dirs[Version(v)];
    && Mine(s, Version(v)) && Adoptable(s, v, d) && (d.manifest.m.ok ==> Whole(d, d.manifest.m))
    && d.manifest.m.createdAt.Some?
    && forall j :: j in Listed(s, w) ==> w.rows[j].createdAt < d.manifest.m.createdAt.value
  }

  predicate Waits(s: Setting, w: World, v: VersionPath) {
    Version(v) in w.dirs && !Recorded(w, v) && DirNames(w.dirs[Version(v)], s.job)
  }

  /** Recovery has nothing to record but what this job wrote. */
  ghost predicate NothingElse(s: Setting, w: World) {
    forall v :: Version(v) in w.dirs && Mine(s, Version(v)) && Adoptable(s, v, w.dirs[Version(v)]) ==>
      Recorded(w, v) || DirNames(w.dirs[Version(v)], s.job)
  }

  ghost predicate OwnOk(s: Setting, w: World, spoiled: set<VersionPath>) {
    && OneClaim(w, s.job, spoiled)
    && (forall i :: i in w.rows && w.rows[i].ok && RowNames(w.rows[i], s.job) ==> OwnRowOk(s, w, i))
    && (forall v :: Waits(s, w, v) ==> WaitingOk(s, w, v))
    && (forall v :: Claim(w, s.job, v) ==> NothingElse(s, w))
  }

  lemma RecordedStill(s: Setting, before: World, w: World, v: VersionPath)
    requires Recovering(s, before, w) && Recorded(before, v)
    ensures Recorded(w, v)
  {
    var i :| i in before.rows && before.rows[i].path == v;
    assert i in w.rows && w.rows[i].path == v;
  }

  /** With a claim there already, recovery records nothing but the claimed version. */
  lemma OnlyTheClaim(s: Setting, spoiled: set<VersionPath>, before: World, w: World, u: VersionPath, i: RowId)
    requires Inv(before, spoiled) && OwnOk(s, before, spoiled) && Recovering(s, before, w)
    requires Claim(before, s.job, u) && i in w.rows && i !in before.rows
    ensures w.rows[i].path == u && Waits(s, before, u) && RowNames(w.rows[i], s.job)
  {
    assert Adopted(s, before, w.rows[i]);
    assert Waits(s, before, w.rows[i].path);
    assert Claim(before, s.job, w.rows[i].path);
  }

  lemma RecoverKeepsRow(s: Setting, spoiled: set<VersionPath>, before: World, w: World, i: RowId)
    requires Inv(before, spoiled) && RowsDistinct(w) && OwnOk(s, before, spoiled) && Recovering(s, before, w)
    requires i in w.rows && w.rows[i].ok && RowNames(w.rows[i], s.job)
    ensures OwnRowOk(s, w, i) && Claim(before, s.job, w.rows[i].path)
  {
    var u := w.rows[i].path;
    if i in before.rows {
      assert OkRowOf(before, s.job, u);
      assert OwnRowOk(s, before, i);
    } else {
      assert Adopted(s, before, w.rows[i]);
      assert Waits(s, before, u);
      assert WaitingOk(s, before, u);
    }
    forall j | j in Listed(s, w) && j != i ensures w.rows[j].createdAt < w.rows[i].createdAt {
      if j !in before.rows {
        OnlyTheClaim(s, spoiled, before, w, u, j);
      }
    }
  }

  lemma RecoverClaims(s: Setting, spoiled: set<VersionPath>, before: World, w: World, v: VersionPath)
    requires Inv(before, spoiled) && RowsDistinct(w) && OwnOk(s, before, spoiled) && Recovering(s, before, w)
    requires Claim(w, s.job, v)
    ensures Claim(before, s.job, v)
  {
    if OkRowOf(w, s.job, v) {
      var i :| i in w.rows && w.rows[i].ok && w.rows[i].path == v && RowNames(w.rows[i], s.job);
      RecoverKeepsRow(s, spoiled, before, w, i);
    } else if Recorded(before, v) {
      RecordedStill(s, before, w, v);
    }
  }

  lemma RecoverKeepsWaiting(s: Setting, spoiled: set<VersionPath>, before: World, w: World, v: VersionPath)
    requires Inv(before, spoiled) && RowsDistinct(w) && OwnOk(s, before, spoiled) && Recovering(s, before, w)
    requires Waits(s, w, v)
    ensures WaitingOk(s, w, v)
  {
    if Recorded(before, v) {
      RecordedStill(s, before, w, v);
    }
    assert Waits(s, before, v) && WaitingOk(s, before, v);
    forall j | j in w.rows ensures j in before.rows {
      if j !in before.rows {
        OnlyTheClaim(s, spoiled, before, w, v, j);
        assert Recorded(w, v);
      }
    }
  }

  lemma RecoverKeepsOwn(s: Setting, spoiled: set<VersionPath>, before: World, w: World)
    requires Inv(before, spoiled) && RowsDistinct(w) && OwnOk(s, before, spoiled) && Recovering(s, before, w)
    ensures OwnOk(s, w, spoiled)
  {
    forall v | Claim(w, s.job, v) ensures Claim(before, s.job, v) && NothingElse(s, w) {
      RecoverClaims(s, spoiled, before, w, v);
      RecoverNothingElse(s, before, w);
    }
    forall i | i in w.rows && w.rows[i].ok && RowNames(w.rows[i], s.job) ensures OwnRowOk(s, w, i) {
      RecoverKeepsRow(s, spoiled, before, w, i);
    }
    forall v | Waits(s, w, v) ensures WaitingOk(s, w, v) {
      RecoverKeepsWaiting(s, spoiled, before, w, v);
    }
  }

  lemma RecoverNothingElse(s: Setting, before: World, w: World)
    requires Recovering(s, before, w) && NothingElse(s, before)
    ensures NothingElse(s, w)
  {
    forall v | Recorded(before, v) ensures Recorded(w, v) {
      RecordedStill(s, before, w, v);
    }
  }

  /** A prune leaves no version waiting that did not wait before. */
  lemma PruneWaits(s: Setting, before: World, w: World, v: VersionPath)
    requires Touched(before, w, Listed(s, before)) && Version(v) in w.dirs && !Recorded(w, v)
    ensures Version(v) in before.dirs && !Recorded(before, v) && before.dirs[Version(v)] == w.dirs[Version(v)]
  {
    var n := Version(v);
    forall j | j in before.rows ensures before.rows[j].path != v {
      if j in w.rows {
        assert w.rows[j] == before.rows[j];
      }
    }
    assert !About(before, Listed(s, before), n);
    assert SameAt(before, w, n);
  }

  lemma PruneKeepsOwn(s: Setting, week: Retention.Time -> Retention.Week, spoiled: set<VersionPath>, before: World,
      w: World, cands: seq<Retention.Version>, present: set<RowId>, gone: set<RowId>, toRestore: set<RowId>,
      toPrune: set<RowId>, clean: bool)
    requires Inv(before, spoiled) && OwnOk(s, before, spoiled) && Touched(before, w, Listed(s, before))
    requires Pruning(before, w, Listed(s, before), present, gone, toRestore, toPrune, clean)
    requires GivenUp(s, week, before, cands, present, gone) && present <= Listed(s, before)
    ensures OwnOk(s, w, spoiled)
    ensures forall i :: i in before.rows && before.rows[i].ok && RowNames(before.rows[i], s.job) ==> i in w.rows
  {
    forall v | Waits(s, w, v) ensures Waits(s, before, v) && WaitingOk(s, w, v) {
      PruneWaits(s, before, w, v);
      assert WaitingOk(s, before, v);
    }
    forall v | Claim(w, s.job, v) ensures Claim(before, s.job, v) && NothingElse(s, w) {
      PruneClaims(s, before, w, v);
      PruneNothingElse(s, before, w);
    }
    forall i | i in before.rows && before.rows[i].ok && RowNames(before.rows[i], s.job)
      ensures i in w.rows && OwnRowOk(s, w, i)
    {
      assert OwnRowOk(s, before, i) && i in Listed(s, before);
      NewestNotGivenUp(s, week, before, cands, present, gone, i);
      KeptByPrune(s, week, spoiled, before, w, present, gone, toRestore, toPrune, clean, i);
    }
    forall n | n in w.dirs && !n.Partial? && DirNames(w.dirs[n], s.job) ensures n.v !in spoiled {
      assert CameFrom(before, w, n);
    }
  }

  lemma PruneClaims(s: Setting, before: World, w: World, v: VersionPath)
    requires Touched(before, w, Listed(s, before)) && Claim(w, s.job, v)
    ensures Claim(before, s.job, v)
  {
    if !OkRowOf(w, s.job, v) {
      PruneWaits(s, before, w, v);
    }
  }

  lemma PruneNothingElse(s: Setting, before: World, w: World)
    requires Touched(before, w, Listed(s, before)) && NothingElse(s, before)
    ensures NothingElse(s, w)
  {
    forall v | Version(v) in w.dirs && Mine(s, Version(v)) && Adoptable(s, v, w.dirs[Version(v)]) && !Recorded(w, v)
      ensures DirNames(w.dirs[Version(v)], s.job)
    {
      PruneWaits(s, before, w, v);
    }
  }

  // ---- Writing a version ----

  /** Nothing of this job is at the destination. */
  ghost predicate Quiet(s: Setting, w: World, spoiled: set<VersionPath>) {
    OneClaim(w, s.job, spoiled) && forall v :: !Claim(w, s.job, v)
  }

  lemma QuietNamesNone(s: Setting, w: World, spoiled: set<VersionPath>)
    requires Quiet(s, w, spoiled)
    ensures forall i :: i in w.rows && w.rows[i].ok ==> !RowNames(w.rows[i], s.job)
    ensures forall v :: !Waits(s, w, v)
  {
    forall i | i in w.rows && w.rows[i].ok ensures !RowNames(w.rows[i], s.job) {
      assert !Claim(w, s.job, w.rows[i].path);
      assert RowNames(w.rows[i], s.job) ==> OkRowOf(w, s.job, w.rows[i].path);
    }
    forall v ensures !Waits(s, w, v) {
      assert !Claim(w, s.job, v);
    }
  }

  lemma QuietIsOwnOk(s: Setting, w: World, spoiled: set<VersionPath>)
    requires Quiet(s, w, spoiled)
    ensures OwnOk(s, w, spoiled)
  {
    QuietNamesNone(s, w, spoiled);
  }

  /** Rows and the directories under a version's name are the same. */
  ghost predicate SameVersions(a: World, b: World) {
    a.rows == b.rows && forall v :: SameAt(a, b, Version(v)) && SameAt(a, b, Trash(v))
  }

  /** Nothing but n changed, twice. */
  lemma SameButTwice(a: World, b: World, c: World, n: DirName)
    requires forall k :: k != n ==> SameAt(a, b, k)
    requires forall k :: k != n ==> SameAt(b, c, k)
    ensures forall k :: k != n ==> SameAt(a, c, k)
  {
    forall k | k != n ensures SameAt(a, c, k) {
      assert SameAt(a, b, k) && SameAt(b, c, k);
    }
  }

  lemma SameVersionsQuiet(s: Setting, a: World, b: World, spoiled: set<VersionPath>)
    requires Quiet(s, a, spoiled) && SameVersions(a, b)
    ensures Quiet(s, b, spoiled)
    ensures NothingElse(s, a) ==> NothingElse(s, b)
  {
    forall v ensures !Claim(b, s.job, v) {
      assert !Claim(a, s.job, v) && SameAt(a, b, Version(v));
      assert OkRowOf(b, s.job, v) ==> OkRowOf(a, s.job, v);
      assert Recorded(a, v) ==> Recorded(b, v);
    }
    forall n | n in b.dirs && !n.Partial? && DirNames(b.dirs[n], s.job) ensures n.v !in spoiled {
      assert SameAt(a, b, Version(n.v)) && SameAt(a, b, Trash(n.v));
    }
    if NothingElse(s, a) {
      SameNothingElse(s, a, b);
    }
  }

  lemma SameVersionsOwnOk(s: Setting, a: World, b: World, spoiled: set<VersionPath>)
    requires OwnOk(s, a, spoiled) && SameVersions(a, b)
    ensures OwnOk(s, b, spoiled)
  {
    forall v ensures (Recorded(b, v) <==> Recorded(a, v)) && SameAt(a, b, Version(v)) && SameAt(a, b, Trash(v)) {
    }
    forall v | Claim(b, s.job, v) ensures Claim(a, s.job, v) && NothingElse(s, b) {
      assert OkRowOf(b, s.job, v) ==> OkRowOf(a, s.job, v);
      assert SameAt(a, b, Version(v)) && Claim(a, s.job, v);
      assert NothingElse(s, a);
      SameNothingElse(s, a, b);
    }
    forall i | i in b.rows && b.rows[i].ok && RowNames(b.rows[i], s.job) ensures OwnRowOk(s, b, i) {
      assert OwnRowOk(s, a, i) && SameAt(a, b, Version(a.rows[i].path));
    }
    forall v | Waits(s, b, v) ensures WaitingOk(s, b, v) {
      assert Waits(s, a, v) && WaitingOk(s, a, v);
    }
    forall n | n in b.dirs && !n.Partial? && DirNames(b.dirs[n], s.job) ensures n.v !in spoiled {
      assert SameAt(a, b, Version(n.v)) && SameAt(a, b, Trash(n.v));
    }
  }

  lemma SameNothingElse(s: Setting, a: World, b: World)
    requires SameVersions(a, b) && NothingElse(s, a)
    ensures NothingElse(s, b)
  {
    forall v | Version(v) in b.dirs && Mine(s, Version(v)) && Adoptable(s, v, b.dirs[Version(v)]) && !Recorded(b, v)
      ensures DirNames(b.dirs[Version(v)], s.job)
    {
      assert SameAt(a, b, Version(v));
      assert Recorded(a, v) ==> Recorded(b, v);
    }
  }

  /** The manifest backup writes. */
  function NewManifest(s: Setting, created: Time, b: Backup, ok: bool, zip: Zip): Manifest {
    Manifest(s.it.id, s.it.app, Some(s.job), Some(created), b, ok, Some(b.name), zip)
  }

  function NewDir(s: Setting, created: Time, b: Backup, ok: bool, zip: Zip): Dir {
    Dir(Good(NewManifest(s, created, b, ok, zip)), map[b.name := zip])
  }

  /** After the rename the new version waits for its row. */
  lemma PublishedWaits(s: Setting, w: World, spoiled: set<VersionPath>, n: DirName, v: VersionPath, b: Backup,
      ok: bool, zip: Zip)
    requires Inv(w, spoiled) && Quiet(s, w, spoiled) && NothingElse(s, w)
    requires n.Partial? && n in w.dirs && w.dirs[n] == NewDir(s, v.at, b, ok, zip)
    requires v.folder == s.it.folder && s.it.folder.id == s.it.id && v !in spoiled
    requires Version(v) !in w.dirs && Trash(v) !in w.dirs && !Recorded(w, v)
    requires forall j :: j in w.rows ==> w.rows[j].createdAt < v.at
    ensures OwnOk(s, Move(w, n, Version(v)), spoiled) && Waits(s, Move(w, n, Version(v)), v)
  {
    var w' := Move(w, n, Version(v));
    QuietNamesNone(s, w, spoiled);
    forall u ensures Recorded(w', u) <==> Recorded(w, u) {
    }
    forall u | Claim(w', s.job, u) ensures u == v {
      assert !Claim(w, s.job, u) && !Waits(s, w, u);
      assert OkRowOf(w', s.job, u) ==> OkRowOf(w, s.job, u);
    }
    assert Whole(w'.dirs[Version(v)], w'.dirs[Version(v)].manifest.m);
    forall u | Waits(s, w', u) ensures u == v && WaitingOk(s, w', u) {
      assert Claim(w', s.job, u);
    }
  }

  /** Writing keeps the versions of this job at one exactly when it had none: an earlier version recovery
      failed to record would come back as a second one. */
  lemma WriteKeepsOneIffNone(s: Setting, w: World, spoiled: set<VersionPath>, n: DirName, v: VersionPath, b: Backup,
      ok: bool, zip: Zip)
    requires Inv(w, spoiled) && OneClaim(w, s.job, spoiled)
    requires n.Partial? && n in w.dirs && w.dirs[n] == NewDir(s, v.at, b, ok, zip) && v !in spoiled
    requires Version(v) !in w.dirs && Trash(v) !in w.dirs && !Recorded(w, v)
    ensures OneClaim(Move(w, n, Version(v)), s.job, spoiled) <==> forall u :: !Claim(w, s.job, u)
  {
    var w' := Move(w, n, Version(v));
    forall u ensures Recorded(w', u) <==> Recorded(w, u) {
    }
    forall u ensures Claim(w', s.job, u) <==> Claim(w, s.job, u) || u == v {
      assert OkRowOf(w', s.job, u) <==> OkRowOf(w, s.job, u);
    }
    forall u | Claim(w, s.job, u) ensures u != v {
      assert OkRowOf(w, s.job, u) ==> Recorded(w, u);
    }
    assert Claim(w', s.job, v);
  }

  /** Recording it makes it this job's one version. */
  lemma RecordedIsOwn(s: Setting, w: World, spoiled: set<VersionPath>, v: VersionPath, row: Row)
    requires Inv(w, spoiled) && OwnOk(s, w, spoiled) && Waits(s, w, v)
    requires row.path == v && row.integration == s.it.id
    requires row.manifest == Some(w.dirs[Version(v)].manifest.m) && Some(row.createdAt) == row.manifest.value.createdAt
    ensures OwnOk(s, Record(w, row), spoiled)
  {
    var w' := Record(w, row);
    assert WaitingOk(s, w, v) && Claim(w, s.job, v);
    forall u | Recorded(w, u) ensures Recorded(w', u) {
      RecordedStays(w, row, u);
    }
    forall u | Claim(w', s.job, u) ensures u == v {
      if OkRowOf(w', s.job, u) {
        var i :| i in w'.rows && w'.rows[i].ok && w'.rows[i].path == u && RowNames(w'.rows[i], s.job);
        assert i in w.rows ==> OkRowOf(w, s.job, u);
      }
      assert u == v || Claim(w, s.job, u);
    }
    forall i | i in w.rows && w.rows[i].ok ensures !RowNames(w.rows[i], s.job) {
      var p := w.rows[i].path;
      assert p == v ==> Recorded(w, v);
      assert RowNames(w.rows[i], s.job) ==> OkRowOf(w, s.job, p) && Claim(w, s.job, p);
    }
    assert w'.rows[w.nextRow].path == v;
    assert Recorded(w', v);
    forall u ensures !Waits(s, w', u) {
      assert Waits(s, w', u) ==> Waits(s, w, u) && Claim(w, s.job, u);
    }
  }

  /** Recording it leaves this job's versions as they are. */
  lemma RecordedSameClaims(s: Setting, w: World, spoiled: set<VersionPath>, v: VersionPath, row: Row)
    requires RowsDistinct(w) && Waits(s, w, v) && v !in spoiled
    requires row.path == v && row.ok && RowNames(row, s.job)
    ensures OneClaim(Record(w, row), s.job, spoiled) <==> OneClaim(w, s.job, spoiled)
  {
    var w' := Record(w, row);
    assert w'.rows[w.nextRow] == row;
    forall u ensures Claim(w', s.job, u) <==> Claim(w, s.job, u) {
      if Recorded(w, u) {
        RecordedStays(w, row, u);
      }
      assert Recorded(w', u) ==> Recorded(w, u) || u == v;
      forall i | i in w.rows ensures i in w'.rows && w'.rows[i] == w.rows[i] {
      }
      assert OkRowOf(w, s.job, u) ==> OkRowOf(w', s.job, u);
      assert OkRowOf(w', s.job, u) ==> OkRowOf(w, s.job, u) || u == v;
      assert OkRowOf(w', s.job, v);
    }
    forall i | i in w.rows ensures i in w'.rows && w'.rows[i] == w.rows[i] {
    }
  }

  /** The rename and the row together. */
  lemma PublishedOnce(s: Setting, w: World, spoiled: set<VersionPath>, n: DirName, v: VersionPath, b: Backup, zip: Zip,
      row: Row)
    requires Inv(w, spoiled) && OneClaim(w, s.job, spoiled)
    requires n.Partial? && n in w.dirs && w.dirs[n] == NewDir(s, v.at, b, true, zip) && v !in spoiled
    requires Version(v) !in w.dirs && Trash(v) !in w.dirs && !Recorded(w, v)
    requires row.path == v && row.ok && row.manifest == Some(NewManifest(s, v.at, b, true, zip))
    ensures OneClaim(Record(Move(w, n, Version(v)), row), s.job, spoiled) <==> Quiet(s, w, spoiled)
  {
    var w' := Move(w, n, Version(v));
    WriteKeepsOneIffNone(s, w, spoiled, n, v, b, true, zip);
    assert Recorded(w', v) ==> Recorded(w, v);
    RecordedSameClaims(s, w', spoiled, v, row);
  }

  // ---- A recorded copy that does not read back ----

  /** A version under its name that is not the recorded one was changed by something else. */
  lemma DamageIsSpoil(w: World, spoiled: set<VersionPath>, i: RowId)
    requires Inv(w, spoiled) && i in w.rows && w.rows[i].ok && Version(w.rows[i].path) in w.dirs
    requires w.rows[i].manifest.Some? && !Whole(w.dirs[Version(w.rows[i].path)], w.rows[i].manifest.value)
    ensures w.rows[i].path in spoiled
  {
    assert !Kept(w, w.rows[i]);
  }

  /** The version is under its name with the zip its row records. */
  predicate WholeFiles(w: World, row: Row) {
    && row.manifest.Some? && row.manifest.value.zipName.Some? && Version(row.path) in w.dirs
    && var d, m := w.dirs[Version(row.path)], row.manifest.value;
    && !d.manifest.NoManifest? && m.zipName.value in d.zips && d.zips[m.zipName.value] == m.zip
  }

  lemma DamagedRow(w: World, spoiled: set<VersionPath>, i: RowId)
    requires Inv(w, spoiled) && i in w.rows && w.rows[i].ok && w.rows[i].manifest.Some?
    requires Version(w.rows[i].path) in w.dirs && !WholeFiles(w, w.rows[i])
    ensures w.rows[i].path in spoiled
  {
    DamageIsSpoil(w, spoiled, i);
  }

  // ---- Whether a scheduled backup is at the destination already ----

  /** Row i was recorded after row j, as rows are listed. */
  predicate Newer(w: World, i: RowId, j: RowId)
    requires i in w.rows && j in w.rows
  {
    w.rows[i].createdAt > w.rows[j].createdAt || (w.rows[i].createdAt == w.rows[j].createdAt && i > j)
  }

  /** Row i is an ok version made from backup b that reads back. */
  predicate IsCopy(s: Setting, w: World, b: Backup, i: RowId) {
    && i in Listed(s, w) && w.rows[i].ok && w.rows[i].manifest.Some? && w.rows[i].manifest.value.backup == b
    && WholeFiles(w, w.rows[i])
  }

  /** Row i says that backup b itself failed its verification. */
  predicate IsBad(s: Setting, w: World, b: Backup, i: RowId) {
    && i in Listed(s, w) && !w.rows[i].ok && w.rows[i].manifest.Some? && w.rows[i].manifest.value.backup == b
    && !w.rows[i].manifest.value.ok
  }

  /** Row i is the newest of either kind. */
  ghost predicate Decides(s: Setting, w: World, b: Backup, i: RowId) {
    && (IsCopy(s, w, b, i) || IsBad(s, w, b, i))
    && forall j :: (IsCopy(s, w, b, j) || IsBad(s, w, b, j)) && j != i ==> Newer(w, i, j)
  }

  ghost predicate KnownBad(s: Setting, w: World, b: Backup) {
    exists i :: IsBad(s, w, b, i) && Decides(s, w, b, i)
  }

  /** Copy i of the scheduled backup decides: the job has nothing to do. */
  ghost predicate UpToDate(s: Setting, w: World, o: Offer, i: RowId) {
    o.scheduled.Some? && IsCopy(s, w, o.scheduled.value, i) && Decides(s, w, o.scheduled.value, i)
  }

  /** The backup to copy otherwise. */
  ghost function Chosen(s: Setting, w: World, o: Offer): Option<Backup> {
    if o.scheduled.Some? && !KnownBad(s, w, o.scheduled.value) then o.scheduled else o.made
  }

  /** How an attempt ends in which nothing failed and that was not stopped; recovery left found. A resumed one ends
      with the version of an earlier attempt, if there is one. Otherwise it is unchanged exactly if an intact copy
      of the scheduled backup decides; an error exactly if the chosen backup cannot be had; and it ends with a new
      version of that backup, which is ok exactly if its verification was. */
  ghost predicate EndsAsItShould(s: Setting, resumed: bool, o: Offer, found: World, out: Outcome, wrote: Option<World>,
      w: World)
  {
    if resumed && exists i :: IsOwn(s, found, i) then
      || (out.Success? && IsOwn(s, found, out.row) && found.rows[out.row].ok)
      || (out.BadVersion? && exists i :: IsOwn(s, found, i) && !found.rows[i].ok)
    else if exists i :: UpToDate(s, found, o, i) then
      out.Unchanged? && UpToDate(s, found, o, out.row)
    else if Chosen(s, found, o).None? || !o.fetched then
      out == Error
    else
      WritesChosen(s, o, Chosen(s, found, o).value, out, wrote, w)
  }

  ghost predicate WritesChosen(s: Setting, o: Offer, b: Backup, out: Outcome, wrote: Option<World>, w: World) {
    if o.ok then out.Success? && wrote.Some? && WroteAs(s, wrote.value, out.row, b, o.ok, o.zip)
    else out == BadVersion && exists i :: WroteAs(s, w, i, b, o.ok, o.zip)
  }

  /** The rows besides rest are newer than it and of neither kind. */
  ghost predicate LookedAt(s: Setting, w: World, b: Backup, rest: set<RowId>)
    requires rest <= Listed(s, w)
  {
    && (forall i :: i in Listed(s, w) && i !in rest ==> !IsCopy(s, w, b, i) && !IsBad(s, w, b, i))
    && (forall i, j :: i in Listed(s, w) && i !in rest && j in rest ==> Newer(w, i, j))
  }

  /** The rows of rest, and the directories, are as they were listed. */
  predicate StillAsListed(s: Setting, before: World, w: World, rest: set<RowId>) {
    && w.dirs == before.dirs && w.now == before.now && rest <= Listed(s, before) && rest <= Listed(s, w)
    && forall i :: i in rest ==> w.rows[i] == before.rows[i]
  }

  /** Row i is an ok version made from backup b whose files are there and are not the recorded ones. */
  predicate IsDamaged(s: Setting, w: World, b: Backup, i: RowId) {
    && i in Listed(s, w) && w.rows[i].ok && Readable(w.rows[i]) && w.rows[i].manifest.value.backup == b
    && Version(w.rows[i].path) in w.dirs && !WholeFiles(w, w.rows[i])
  }

  /** The version of row i is recorded as failed, and otherwise as it was. */
  ghost predicate MarkedFailed(before: World, w: World, i: RowId)
    requires i in before.rows
  {
    exists j :: j in w.rows && w.rows[j] == before.rows[i].(ok := false)
  }

  /** Every damaged copy besides rest is. */
  ghost predicate Demoted(s: Setting, before: World, w: World, b: Backup, rest: set<RowId>) {
    forall i :: IsDamaged(s, before, b, i) && i !in rest ==> MarkedFailed(before, w, i)
  }

  lemma DemotedOn(s: Setting, before: World, mid: World, w: World, b: Backup, rest: set<RowId>, i: RowId)
    requires StillAsListed(s, before, mid, rest) && i in rest && Demoted(s, before, mid, b, rest)
    requires forall j :: j in mid.rows && j != i ==> j in w.rows && w.rows[j] == mid.rows[j]
    requires w == mid || mid.rows[i].ok
    requires IsDamaged(s, before, b, i) ==> MarkedFailed(mid, w, i)
    ensures Demoted(s, before, w, b, rest - {i})
  {
    forall k | IsDamaged(s, before, b, k) && k !in rest - {i} ensures MarkedFailed(before, w, k) {
      if k != i {
        var j :| j in mid.rows && mid.rows[j] == before.rows[k].(ok := false);
        assert j in w.rows && w.rows[j] == mid.rows[j];
      }
    }
  }

  lemma SameRow(s: Setting, before: World, w: World, b: Backup, rest: set<RowId>, i: RowId)
    requires StillAsListed(s, before, w, rest) && i in rest
    ensures (IsCopy(s, w, b, i) <==> IsCopy(s, before, b, i)) && (IsBad(s, w, b, i) <==> IsBad(s, before, b, i))
  {
  }

  /** The newest row of rest decides if it is of either kind; otherwise it has been looked at. */
  lemma LookedAtOn(s: Setting, before: World, w: World, b: Backup, rest: set<RowId>, i: RowId)
    requires StillAsListed(s, before, w, rest) && i in rest && LookedAt(s, before, b, rest)
    requires forall j :: j in rest && j != i ==> Newer(w, i, j)
    ensures if IsCopy(s, before, b, i) || IsBad(s, before, b, i) then Decides(s, before, b, i)
      else LookedAt(s, before, b, rest - {i})
  {
    forall j | j in rest && j != i ensures Newer(before, i, j) {
      assert Newer(w, i, j);
    }
  }

  /** This job has the versions it had. */
  ghost predicate SameClaims(job: Job, a: World, b: World, spoiled: set<VersionPath>) {
    OneClaim(a, job, spoiled) ==> OneClaim(b, job, spoiled) && forall v :: Claim(a, job, v) <==> Claim(b, job, v)
  }

  /** The row markFailed deletes is of a spoiled version, which this job did not write. */
  lemma UnrecordSameClaims(s: Setting, w: World, spoiled: set<VersionPath>, i: RowId)
    requires i in w.rows && w.rows[i].path in spoiled
    ensures SameClaims(s.job, w, Unrecord(w, i), spoiled)
  {
    var w' := Unrecord(w, i);
    if OneClaim(w, s.job, spoiled) {
      forall v ensures Claim(w', s.job, v) <==> Claim(w, s.job, v) {
        assert OkRowOf(w', s.job, v) ==> OkRowOf(w, s.job, v);
        forall j | j in w.rows && w.rows[j].path == v ensures j in w'.rows || v in spoiled {
        }
        assert Recorded(w, v) && v !in spoiled ==> Recorded(w', v);
        assert OkRowOf(w, s.job, v) ==> v !in spoiled;
      }
    }
  }

  /** And the one it inserts says the version failed. */
  lemma RecordSameClaims(s: Setting, w: World, spoiled: set<VersionPath>, row: Row)
    requires RowsDistinct(w) && !row.ok && row.path in spoiled && !RowNames(row, s.job)
    ensures SameClaims(s.job, w, Record(w, row), spoiled)
  {
    var w' := Record(w, row);
    if OneClaim(w, s.job, spoiled) {
      forall v ensures Claim(w', s.job, v) <==> Claim(w, s.job, v) {
        assert OkRowOf(w', s.job, v) ==> OkRowOf(w, s.job, v);
        if Recorded(w, v) {
          RecordedStays(w, row, v);
        }
        assert Recorded(w', v) ==> Recorded(w, v) || v == row.path;
      }
    }
  }

  lemma SameClaimsTwice(job: Job, a: World, b: World, c: World, spoiled: set<VersionPath>)
    requires SameClaims(job, a, b, spoiled) && SameClaims(job, b, c, spoiled)
    ensures SameClaims(job, a, c, spoiled)
  {
    if OneClaim(a, job, spoiled) {
      forall v ensures Claim(a, job, v) <==> Claim(c, job, v) {
        assert Claim(a, job, v) <==> Claim(b, job, v);
      }
    }
  }

  /** Filling the partial directory n, from empty on. */
  lemma FilledSameClaims(s: Setting, a: World, empty: World, b: World, spoiled: set<VersionPath>, n: DirName)
    requires a.rows == b.rows && a.dirs == empty.dirs && n.Partial? && forall k :: k != n ==> SameAt(empty, b, k)
    ensures SameClaims(s.job, a, b, spoiled)
    ensures OneClaim(a, s.job, spoiled) && Quiet(s, b, spoiled) ==> Quiet(s, a, spoiled)
  {
    forall v ensures SameAt(a, b, Version(v)) && SameAt(a, b, Trash(v)) {
      assert SameAt(empty, b, Version(v)) && SameAt(empty, b, Trash(v));
    }
    SameVersionsSameClaims(s, a, b, spoiled);
  }

  lemma SameVersionsSameClaims(s: Setting, a: World, b: World, spoiled: set<VersionPath>)
    requires SameVersions(a, b)
    ensures SameClaims(s.job, a, b, spoiled)
  {
    forall v ensures Claim(a, s.job, v) <==> Claim(b, s.job, v) {
      assert SameAt(a, b, Version(v)) && (Recorded(a, v) <==> Recorded(b, v));
      assert OkRowOf(a, s.job, v) <==> OkRowOf(b, s.job, v);
    }
    forall n | n in b.dirs && !n.Partial? ensures SameAt(a, b, n) {
      assert SameAt(a, b, Version(n.v)) && SameAt(a, b, Trash(n.v));
    }
  }

  /** Every path recorded before is recorded. */
  lemma ReplacedRow(w: World, i: RowId, row: Row)
    requires RowsDistinct(w) && i in w.rows && row.path == w.rows[i].path
    ensures forall v :: Recorded(w, v) ==> Recorded(Record(Unrecord(w, i), row), v)
  {
    var w' := Record(Unrecord(w, i), row);
    assert w'.rows[w.nextRow] == row;
    forall v | Recorded(w, v) ensures Recorded(w', v) {
      var j :| j in w.rows && w.rows[j].path == v;
      assert j != i ==> j in w'.rows && w'.rows[j] == w.rows[j];
    }
  }

  lemma CleanStays(s: Setting, a: World, b: World)
    requires Clean(s, a) && a.dirs == b.dirs && forall v :: Recorded(a, v) ==> Recorded(b, v)
    ensures Clean(s, b)
  {
    forall n | n in b.dirs ensures Settled(s, b, n) {
      assert Settled(s, a, n);
    }
  }

  // ---- One attempt ----

  /** Recovery missed nothing and this job has no version: the attempt may write one. */
  ghost predicate Ready(s: Setting, w: World, spoiled: set<VersionPath>) {
    Inv(w, spoiled) && Quiet(s, w, spoiled) && NothingElse(s, w)
  }

  ghost predicate CleanBut(s: Setting, w: World, n: DirName) {
    forall k :: k in w.dirs && k != n ==> Settled(s, w, k)
  }

  lemma ReadyForPartial(s: Setting, w: World, spoiled: set<VersionPath>, n: DirName, d: Dir)
    requires Ready(s, w, spoiled) && n.Partial? && DirPast(n, d, w.now)
    ensures Ready(s, Put(w, n, d), spoiled)
  {
    PutPartialKeeps(w, spoiled, n, d);
    SameVersionsQuiet(s, w, Put(w, n, d), spoiled);
  }

  lemma CleanButPartial(s: Setting, w: World, n: DirName, d: Dir)
    requires CleanBut(s, w, n)
    ensures CleanBut(s, Put(w, n, d), n)
  {
    forall k | k in w.dirs && k != n ensures Settled(s, Put(w, n, d), k) {
      assert Settled(s, w, k);
    }
  }

  lemma ReadyLater(s: Setting, w: World, spoiled: set<VersionPath>)
    requires Ready(s, w, spoiled)
    ensures Ready(s, w.(now := w.now + 1), spoiled)
  {
    TickKeeps(w, spoiled);
    SameVersionsQuiet(s, w, w.(now := w.now + 1), spoiled);
  }

  /** With its row, the new version is settled too. */
  lemma CleanOnceRecorded(s: Setting, w: World, n: DirName, v: VersionPath, row: Row)
    requires RowsDistinct(w) && CleanBut(s, w, n) && n.Partial? && n in w.dirs && row.path == v
    ensures Clean(s, Record(Move(w, n, Version(v)), row))
  {
    var w' := Record(Move(w, n, Version(v)), row);
    assert w'.rows[w.nextRow].path == v;
    forall k | k in w'.dirs ensures Settled(s, w', k) {
      if k != Version(v) {
        assert Settled(s, w, k);
        if !k.Partial? && Recorded(w, k.v) {
          var i :| i in w.rows && w.rows[i].path == k.v;
          assert i in w'.rows && w'.rows[i].path == k.v;
        }
      }
    }
  }

  /** A version dated now has a name of its own. */
  lemma NewNameIsFree(w: World, spoiled: set<VersionPath>, v: VersionPath)
    requires Inv(w, spoiled) && v.at >= w.now
    ensures Version(v) !in w.dirs && Trash(v) !in w.dirs && !Recorded(w, v) && v !in spoiled
  {
    assert Version(v) in w.dirs ==> DirPast(Version(v), w.dirs[Version(v)], w.now);
    assert Trash(v) in w.dirs ==> DirPast(Trash(v), w.dirs[Trash(v)], w.now);
  }


  /** How an attempt ends; Interrupted: the process stopped, and the job will be resumed. */
  datatype Outcome = Success(row: RowId) | Unchanged(row: RowId) | BadVersion | Error | Interrupted

  /** Row i is this job's ok version. */
  predicate IsOwnOk(s: Setting, w: World, i: RowId) {
    i in w.rows && w.rows[i].ok && RowNames(w.rows[i], s.job)
  }

  /** It is the only one. */
  lemma OnlyOwn(s: Setting, w: World, spoiled: set<VersionPath>, i: RowId, j: RowId)
    requires RowsDistinct(w) && OwnOk(s, w, spoiled) && IsOwnOk(s, w, i) && IsOwnOk(s, w, j)
    ensures i == j
  {
    assert OkRowOf(w, s.job, w.rows[i].path) && OkRowOf(w, s.job, w.rows[j].path);
    assert Claim(w, s.job, w.rows[i].path) && Claim(w, s.job, w.rows[j].path);
  }

  // ---- What failed accesses do ----

  /** missed: the versions recovery would have recorded, had an access not failed. */
  ghost predicate Missed(s: Setting, w: World, missed: set<VersionPath>) {
    && (forall v :: v in missed ==> Version(v) in w.dirs && !Recorded(w, v))
    && (forall v :: Version(v) in w.dirs && Mine(s, Version(v)) && Adoptable(s, v, w.dirs[Version(v)]) ==>
      Recorded(w, v) || v in missed)
  }

  /** recover does not get as far as the row of version v. */
  predicate CutOff(broken: set<Access>, v: VersionPath) {
    Enter(v.folder) in broken || Stat(v) in broken || ReadManifest(v) in broken || AddRow(v) in broken
  }

  /** recover may leave version v out although it would record it. */
  predicate MayMiss(s: Setting, w: World, broken: set<Access>, v: VersionPath) {
    || CutOff(broken, v)
    || (FindJob(v) in broken && Version(v) in w.dirs && !DirNames(w.dirs[Version(v)], s.job))
  }

  /** A row that recover added to the rows of w. */
  predicate RowExact(w: World, broken: set<Access>, row: Row) {
    && !CutOff(broken, row.path)
    && (row.ok <==>
        && row.manifest.Some? && row.manifest.value.ok
        && WholeAt(w, Version(row.path), row.manifest.value)
        && ReadZip(row.path) !in broken)
  }

  ghost predicate RowsExact(before: World, w: World, broken: set<Access>) {
    forall i :: i in w.rows && i !in before.rows ==> RowExact(before, broken, w.rows[i])
  }

  /** The row recovery adds; the clock may have moved on before. */
  lemma RecordsAdopted(s: Setting, before: World, now: Time, row: Row, broken: set<Access>)
    requires RowsDistinct(before) && Adopted(s, before, row) && RowExact(before, broken, row)
    ensures Grew(s, before, Record(before.(now := now), row), row.path)
    ensures RowsExact(before, Record(before.(now := now), row), broken)
  {
  }

  ghost predicate MissedSoFar(s: Setting, w: World, rest: set<DirName>, missed: set<VersionPath>) {
    && (forall v :: v in missed ==> Version(v) in w.dirs && Version(v) !in rest && !Recorded(w, v))
    && (forall v :: Version(v) in w.dirs && Version(v) !in rest && v !in missed ==> Settled(s, w, Version(v)))
  }

  lemma SameRowsSameRecords(a: World, b: World)
    requires a.rows == b.rows
    ensures forall v :: Recorded(a, v) <==> Recorded(b, v)
  {
    forall v ensures Recorded(a, v) <==> Recorded(b, v) {
    }
  }

  lemma NotRecordedStill(s: Setting, mid: World, w: World, n: DirName, v: VersionPath)
    requires RowsDistinct(mid) && RecoveredName(s, mid, w, n) && !Recorded(mid, v) && n != Version(v)
    ensures !Recorded(w, v)
  {
    forall i | i in w.rows ensures w.rows[i].path != v {
      assert i in mid.rows ==> mid.rows[i].path != v;
    }
  }

  /** The names still to come are as they were. */
  ghost predicate Ahead(s: Setting, before: World, w: World, rest: set<DirName>) {
    forall n :: n in rest ==> n in w.dirs && Mine(s, n) && n in before.dirs && w.dirs[n] == before.dirs[n]
  }

  ghost predicate SettledBut(s: Setting, w: World, rest: set<DirName>) {
    forall n :: n in w.dirs && n !in rest ==> Settled(s, w, n)
  }

  /** Where recovery stands: rest is still to come; clean: no access failed so far. */
  ghost predicate Underway(s: Setting, before: World, w: World, rest: set<DirName>, missed: set<VersionPath>,
      broken: set<Access>, clean: bool)
  {
    && Recovering(s, before, w) && Ahead(s, before, w, rest)
    && MissedSoFar(s, w, rest, missed) && (forall v :: v in missed ==> MayMiss(s, before, broken, v))
    && RowsExact(before, w, broken)
    && (clean ==> SettledBut(s, w, rest) && (Clean(s, before) ==> w == before))
  }

  lemma UnderwayOn(s: Setting, before: World, mid: World, w: World, n: DirName, rest: set<DirName>,
                   missed: set<VersionPath>, gap: bool, broken: set<Access>, clean: bool)
    requires RowsDistinct(mid) && Underway(s, before, mid, rest, missed, broken, clean) && n in rest
    requires RecoveredName(s, mid, w, n) && RowsExact(mid, w, broken)
    requires n.Version? && !gap ==> Settled(s, w, n)
    requires gap ==> n.Version? && n in w.dirs && !Recorded(w, n.v) && MayMiss(s, mid, broken, n.v)
    requires clean ==> Settled(s, w, n) && (Settled(s, mid, n) ==> w == mid)
    ensures Underway(s, before, w, rest - {n}, if gap then missed + {n.v} else missed, broken, clean)
  {
    RecoveringOn(s, before, mid, w, n);
    AheadOn(s, before, mid, w, n, rest);
    MissedOn(s, mid, w, n, rest, missed, gap);
    RowsExactOn(s, before, mid, w, broken);
    if clean {
      SettledOn(s, mid, w, n, rest);
      assert Clean(s, before) ==> Settled(s, before, n);
    }
  }

  lemma AheadOn(s: Setting, before: World, mid: World, w: World, n: DirName, rest: set<DirName>)
    requires Ahead(s, before, mid, rest) && RecoveredName(s, mid, w, n)
    ensures Ahead(s, before, w, rest - {n})
  {
  }

  lemma SettledOn(s: Setting, mid: World, w: World, n: DirName, rest: set<DirName>)
    requires RowsDistinct(mid) && SettledBut(s, mid, rest) && RecoveredName(s, mid, w, n) && Settled(s, w, n)
    ensures SettledBut(s, w, rest - {n})
  {
    forall k | k in w.dirs && k !in rest && k != n ensures Settled(s, w, k) {
      SettledStays(s, mid, w, n, k);
    }
  }

  lemma RowsExactOn(s: Setting, before: World, mid: World, w: World, broken: set<Access>)
    requires Recovering(s, before, mid) && RowsExact(before, mid, broken) && RowsExact(mid, w, broken)
    requires forall i :: i in mid.rows ==> i in w.rows && w.rows[i] == mid.rows[i]
    ensures RowsExact(before, w, broken)
  {
    forall i | i in w.rows && i !in before.rows ensures RowExact(before, broken, w.rows[i]) {
      if i in mid.rows {
        assert RowExact(before, broken, mid.rows[i]);
      } else {
        assert RowExact(mid, broken, w.rows[i]);
      }
    }
  }

  /** recover looked at n; gap: an access about it failed. */
  lemma MissedOn(s: Setting, mid: World, w: World, n: DirName, rest: set<DirName>, missed: set<VersionPath>, gap: bool)
    requires RowsDistinct(mid) && RecoveredName(s, mid, w, n) && MissedSoFar(s, mid, rest, missed) && n in rest
    requires n.Version? && !gap ==> Settled(s, w, n)
    requires gap ==> n.Version? && n in w.dirs && !Recorded(w, n.v)
    ensures MissedSoFar(s, w, rest - {n}, if gap then missed + {n.v} else missed)
  {
    forall v | v in missed ensures !Recorded(w, v) && Version(v) in w.dirs {
      assert Version(v) != n;
      NotRecordedStill(s, mid, w, n, v);
    }
    forall v | Version(v) in w.dirs && Version(v) !in rest - {n} && v !in missed && Version(v) != n
      ensures Settled(s, w, Version(v))
    {
      SettledStays(s, mid, w, n, Version(v));
    }
  }

  /** The state an attempt begins in: what this job wrote is in order, and a first attempt finds nothing of it. */
  ghost predicate InOrder(s: Setting, w: World, spoiled: set<VersionPath>, resumed: bool) {
    OwnOk(s, w, spoiled) && (!resumed ==> Quiet(s, w, spoiled))
  }

  /** v is a version this job wrote whole, and an access that fails keeps the attempt from returning it: while v
      waits for its row, one on the way to the row, or looking at it once it is recorded ok; when it is
      recorded, looking at it. */
  predicate Overlooks(s: Setting, w: World, broken: set<Access>, v: VersionPath) {
    if Waits(s, w, v) then CutOff(broken, v) || (Look(v) in broken && ReadsBack(w, broken, v))
    else OkRowOf(w, s.job, v) && Look(v) in broken
  }

  /** The waiting version v is recorded ok once recover gets to it. */
  predicate ReadsBack(w: World, broken: set<Access>, v: VersionPath)
    requires Version(v) in w.dirs && w.dirs[Version(v)].manifest.Good?
  {
    w.dirs[Version(v)].manifest.m.ok && ReadZip(v) !in broken
  }

  /** v is a version this job wrote whole, and the attempt ends with it. */
  predicate Returns(s: Setting, w: World, broken: set<Access>, v: VersionPath) {
    && Look(v) !in broken
    && if Waits(s, w, v) then !CutOff(broken, v) && ReadsBack(w, broken, v) else OkRowOf(w, s.job, v)
  }

  /** An attempt that ends with its version overlooks none. */
  lemma ReturnsOrOverlooks(s: Setting, w: World, spoiled: set<VersionPath>, broken: set<Access>, v: VersionPath)
    requires OneClaim(w, s.job, spoiled) && Returns(s, w, broken, v)
    ensures forall u :: !Overlooks(s, w, broken, u)
  {
    assert Claim(w, s.job, v);
    forall u | Overlooks(s, w, broken, u) ensures false {
      assert Claim(w, s.job, u);
    }
  }

  /** What recover and an ownVersion that returned nothing left: missed are the versions recover left out. */
  ghost predicate Recovered(s: Setting, before: World, w: World, resumed: bool, broken: set<Access>,
      missed: set<VersionPath>)
  {
    && Recovering(s, before, w) && RowsExact(before, w, broken)
    && Missed(s, w, missed) && (forall v :: v in missed ==> MayMiss(s, before, broken, v))
    && (resumed ==> forall i :: IsOwn(s, w, i) ==> Look(w.rows[i].path) in broken)
  }

  /** After a recovery and an ownVersion that returned nothing, this job has no version if and only if it had
      none that one of the failing accesses overlooks. (Writing then keeps its versions at one exactly in this
      case: WriteKeepsOneIffNone.) */
  lemma QuietUnlessOverlooked(s: Setting, before: World, w: World, spoiled: set<VersionPath>, resumed: bool,
                              broken: set<Access>, missed: set<VersionPath>)
    requires Inv(before, spoiled) && InOrder(s, before, spoiled, resumed)
    requires Inv(w, spoiled) && Recovered(s, before, w, resumed, broken, missed)
    ensures Quiet(s, w, spoiled) <==> forall v :: !Overlooks(s, before, broken, v)
  {
    RecoverKeepsOwn(s, spoiled, before, w);
    forall v | Claim(w, s.job, v) ensures Overlooks(s, before, broken, v) {
      ClaimWasOverlooked(s, before, w, spoiled, resumed, broken, missed, v);
    }
    forall v | Overlooks(s, before, broken, v) ensures Claim(w, s.job, v) {
      OverlookedStays(s, before, w, spoiled, resumed, broken, missed, v);
    }
  }

  /** A version of this job that is there was overlooked. */
  lemma ClaimWasOverlooked(s: Setting, before: World, w: World, spoiled: set<VersionPath>, resumed: bool,
                           broken: set<Access>, missed: set<VersionPath>, v: VersionPath)
    requires Inv(before, spoiled) && InOrder(s, before, spoiled, resumed)
    requires Inv(w, spoiled) && Recovered(s, before, w, resumed, broken, missed)
    requires Claim(w, s.job, v)
    ensures Overlooks(s, before, broken, v)
  {
    RecoverKeepsOwn(s, spoiled, before, w);
    RecoverClaims(s, spoiled, before, w, v);
    if OkRowOf(w, s.job, v) {
      var i :| i in w.rows && w.rows[i].ok && w.rows[i].path == v && RowNames(w.rows[i], s.job);
      assert OwnRowOk(s, w, i) && IsOwn(s, w, i);
      if i in before.rows {
        assert Recorded(before, v) && OkRowOf(before, s.job, v);
      } else {
        assert RowExact(before, broken, w.rows[i]) && Adopted(s, before, w.rows[i]);
      }
    } else {
      assert WaitingOk(s, w, v);
      if Recorded(before, v) {
        RecordedStill(s, before, w, v);
      }
      assert v in missed && Waits(s, before, v);
    }
  }

  /** An ok version that ownVersion returns is one the attempt had to end with. */
  lemma OwnReturns(s: Setting, before: World, w: World, spoiled: set<VersionPath>, broken: set<Access>, i: RowId)
    requires Inv(before, spoiled) && OwnOk(s, before, spoiled) && Inv(w, spoiled)
    requires Recovering(s, before, w) && RowsExact(before, w, broken)
    requires IsOwn(s, w, i) && w.rows[i].ok && Look(w.rows[i].path) !in broken
    ensures Returns(s, before, broken, w.rows[i].path)
  {
    var v := w.rows[i].path;
    if i in before.rows {
      assert Recorded(before, v) && OkRowOf(before, s.job, v);
    } else {
      assert RowExact(before, broken, w.rows[i]) && Adopted(s, before, w.rows[i]);
      assert Waits(s, before, v);
    }
  }

  /** And one it had to end with is there to be returned. */
  lemma ReturnsOwn(s: Setting, before: World, w: World, spoiled: set<VersionPath>, broken: set<Access>,
                   missed: set<VersionPath>, v: VersionPath)
    requires OwnOk(s, before, spoiled) && Recovering(s, before, w) && RowsExact(before, w, broken)
    requires Missed(s, w, missed) && (forall u :: u in missed ==> MayMiss(s, before, broken, u))
    requires Returns(s, before, broken, v)
    ensures exists i :: IsOwn(s, w, i) && w.rows[i].path == v
  {
    var i: RowId;
    if Waits(s, before, v) {
      assert WaitingOk(s, before, v) && Recorded(w, v);
      i :| i in w.rows && w.rows[i].path == v;
      assert RowExact(before, broken, w.rows[i]) && Adopted(s, before, w.rows[i]);
    } else {
      i :| i in before.rows && before.rows[i].ok && before.rows[i].path == v && RowNames(before.rows[i], s.job);
      assert OwnRowOk(s, before, i);
    }
    assert IsOwn(s, w, i);
  }

  lemma NoneReturns(s: Setting, before: World, w: World, spoiled: set<VersionPath>, resumed: bool,
                    broken: set<Access>, missed: set<VersionPath>, v: VersionPath)
    requires InOrder(s, before, spoiled, resumed) && Recovered(s, before, w, resumed, broken, missed)
    ensures !Returns(s, before, broken, v)
  {
    if Returns(s, before, broken, v) {
      assert Claim(before, s.job, v);
      if resumed {
        ReturnsOwn(s, before, w, spoiled, broken, missed, v);
      }
    }
  }

  /** And what is overlooked is there still. */
  lemma OverlookedStays(s: Setting, before: World, w: World, spoiled: set<VersionPath>, resumed: bool,
                        broken: set<Access>, missed: set<VersionPath>, v: VersionPath)
    requires Inv(before, spoiled) && InOrder(s, before, spoiled, resumed)
    requires Recovered(s, before, w, resumed, broken, missed) && Overlooks(s, before, broken, v)
    ensures Claim(w, s.job, v)
  {
    if Waits(s, before, v) {
      assert WaitingOk(s, before, v);
      if Recorded(w, v) {
        var i :| i in w.rows && w.rows[i].path == v;
        assert i !in before.rows;
        assert RowExact(before, broken, w.rows[i]) && Adopted(s, before, w.rows[i]);
        assert OkRowOf(w, s.job, v);
      }
    } else {
      var i :| i in before.rows && before.rows[i].ok && before.rows[i].path == v && RowNames(before.rows[i], s.job);
      assert i in w.rows && w.rows[i] == before.rows[i];
    }
  }

  /** A version of this job that is there was recorded or left out. */
  lemma ClaimIsOwnOrMissed(s: Setting, before: World, w: World, spoiled: set<VersionPath>, missed: set<VersionPath>,
                           v: VersionPath)
    requires Inv(before, spoiled) && OwnOk(s, before, spoiled)
    requires Inv(w, spoiled) && Recovering(s, before, w) && Missed(s, w, missed) && Claim(w, s.job, v)
    ensures Claim(before, s.job, v) && (v in missed || exists i :: IsOwn(s, w, i))
  {
    RecoverKeepsOwn(s, spoiled, before, w);
    RecoverClaims(s, spoiled, before, w, v);
    if OkRowOf(w, s.job, v) {
      var i :| i in w.rows && w.rows[i].ok && w.rows[i].path == v && RowNames(w.rows[i], s.job);
      assert OwnRowOk(s, w, i) && IsOwn(s, w, i);
    } else {
      assert WaitingOk(s, w, v);
    }
  }

  /** With nothing left out and nothing of this job found, the attempt may write. */
  lemma ReadyToWrite(s: Setting, before: World, w: World, spoiled: set<VersionPath>, resumed: bool,
      missed: set<VersionPath>)
    requires Inv(before, spoiled) && InOrder(s, before, spoiled, resumed)
    requires Inv(w, spoiled) && Recovering(s, before, w) && Missed(s, w, missed) && missed == {}
    requires resumed ==> forall i :: !IsOwn(s, w, i)
    ensures Ready(s, w, spoiled)
  {
    RecoverKeepsOwn(s, spoiled, before, w);
    forall v | Claim(w, s.job, v) ensures !resumed && Claim(before, s.job, v) {
      ClaimIsOwnOrMissed(s, before, w, spoiled, missed, v);
    }
  }

  lemma NothingMissed(s: Setting, w: World, broken: set<Access>, missed: set<VersionPath>)
    requires forall v :: v in missed ==> MayMiss(s, w, broken, v)
    ensures Harmless(broken) ==> missed == {} && forall v :: Look(v) !in broken
  {
    forall v | Harmless(broken) ensures !MayMiss(s, w, broken, v) && Look(v) !in broken {
    }
    assert Harmless(broken) ==> forall v :: v !in missed;
  }

  lemma ReadyStays(s: Setting, a: World, b: World, spoiled: set<VersionPath>)
    requires Ready(s, a, spoiled) && Inv(b, spoiled) && Quiet(s, b, spoiled) && a.dirs == b.dirs
    requires forall v :: Recorded(a, v) ==> Recorded(b, v)
    ensures Ready(s, b, spoiled)
  {
  }

  // ---- What a run may lose ----

  /** The rows of versions nothing else changed are all there. */
  ghost predicate RowsKept(a: World, b: World, spoiled: set<VersionPath>) {
    forall i :: i in a.rows && a.rows[i].path !in spoiled ==> i in b.rows && b.rows[i] == a.rows[i]
  }

  /** One prune: the state it began in, the rows it found at the destination, and those the retention gave up. */
  datatype PruneRun = PruneRun(before: World, cands: seq<Retention.Version>, present: set<RowId>, gone: set<RowId>)

  ghost predicate PrunedWell(s: Setting, week: Retention.Time -> Retention.Week, p: PruneRun, w: World) {
    PrunedRight(s, week, p.before, p.cands, p.present, p.gone, w)
  }

  ghost predicate Justified(s: Setting, week: Retention.Time -> Retention.Week, p: PruneRun) {
    p.gone <= p.present <= Listed(s, p.before) && GivenUp(s, week, p.before, p.cands, p.present, p.gone)
  }

  /** A prune in a state where every unspoiled ok version was whole; w is what came of it: every one of them is
      recorded as it was, but those the retention gave up. */
  ghost predicate Anchored(s: Setting, week: Retention.Time -> Retention.Week, spoiled: set<VersionPath>, p: PruneRun,
      w: World)
  {
    Justified(s, week, p) && Inv(p.before, spoiled) && NoneLost(p.before, w, spoiled, Some(p))
  }

  /** Every ok version nothing else changed is recorded as before, or was given up by the prune. */
  ghost predicate NoneLost(a: World, b: World, spoiled: set<VersionPath>, pruned: Option<PruneRun>) {
    forall i :: i in a.rows && a.rows[i].ok && a.rows[i].path !in spoiled ==>
      (i in b.rows && b.rows[i] == a.rows[i]) || (pruned.Some? && i in pruned.value.gone)
  }

  lemma PruneLosesNone(s: Setting, week: Retention.Time -> Retention.Week, spoiled: set<VersionPath>, before: World,
      w: World, present: set<RowId>, gone: set<RowId>, toRestore: set<RowId>, toPrune: set<RowId>, clean: bool)
    requires Inv(before, spoiled) && Touched(before, w, Listed(s, before))
    requires Pruning(before, w, Listed(s, before), present, gone, toRestore, toPrune, clean)
    ensures forall i :: i in before.rows && before.rows[i].ok && before.rows[i].path !in spoiled ==>
      (i in w.rows && w.rows[i] == before.rows[i]) || i in gone
  {
    forall i | i in before.rows && before.rows[i].ok && before.rows[i].path !in spoiled && i !in gone
      ensures i in w.rows && w.rows[i] == before.rows[i]
    {
      if i in Listed(s, before) {
        KeptByPrune(s, week, spoiled, before, w, present, gone, toRestore, toPrune, clean, i);
      }
    }
  }

  /** The version this job just wrote. */
  predicate Wrote(s: Setting, w: World, row: RowId, ok: bool) {
    && row in Listed(s, w) && RowNames(w.rows[row], s.job) && w.rows[row].ok == ok
    && Version(w.rows[row].path) in w.dirs
  }

  /** It holds backup b, as its manifest says. */
  predicate WroteAs(s: Setting, w: World, row: RowId, b: Backup, ok: bool, zip: Zip) {
    && Wrote(s, w, row, ok) && w.rows[row].createdAt == w.rows[row].path.at
    && w.rows[row].manifest == Some(NewManifest(s, w.rows[row].createdAt, b, ok, zip)) && WholeFiles(w, w.rows[row])
  }

  /** A new version, of an attempt that began in before. */
  predicate WroteNew(s: Setting, before: World, w: World, row: RowId) {
    Wrote(s, w, row, true) && w.rows[row].path.at >= before.now
  }

  lemma RecordedWrote(s: Setting, w: World, row: Row)
    requires RowsDistinct(w) && row.integration == s.it.id && RowNames(row, s.job) && Version(row.path) in w.dirs
    ensures RowsKept(w, Record(w, row), {}) && Wrote(s, Record(w, row), w.nextRow, row.ok)
  {
  }
}
