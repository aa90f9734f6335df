/** The *arr backup job (internal/arrbackup/runner.go, recover.go): what it writes, prunes and recovers,
    with a crash after any change at the destination or in the database, and a failure of any access. */
module ArrBackup {
  import opened Wrappers
  import opened ArrVersions
  import opened ArrRules
  import Retention

  class Run {
    const s: Setting
    /** An earlier attempt of the job may have run. */
    const resumed: bool
    const week: Retention.Time -> Retention.Week
    /** What fails in this attempt: of Other accesses any, of the rest exactly these. */
    const broken: set<Access>
    const offer: Offer
    /** The process may stop after any change. */
    const stops: bool
    /** The versions something else changed before this run. */
    ghost const spoiled: set<VersionPath>
    var world: World
    /** The accesses that failed so far. */
    var errors: nat

    constructor (s: Setting, resumed: bool, week: Retention.Time -> Retention.Week, input: Input,
        ghost spoiled: set<VersionPath>, world: World)
      ensures this.s == s && this.resumed == resumed && this.week == week && broken == input.broken
      ensures offer == input.offer && stops == input.stops
      ensures this.spoiled == spoiled && this.world == world && errors == 0
    {
      this.s, this.resumed, this.week := s, resumed, week;
      this.broken, this.offer, this.stops := input.broken, input.offer, input.stops;
      this.spoiled, this.world, errors := spoiled, world, 0;
    }

    ghost predicate Valid()
      reads this
    {
      Inv(world, spoiled)
    }

    /** removeTree and RemoveTrash: file by file, so it can stop half way. */
    method RemoveTree(n: DirName) returns (res: Res)
      requires Valid() && Loose(world, n)
      modifies this
      ensures res == Crashed ==> stops
      ensures Valid() && Counted(broken, old(errors), errors)
      ensures Removing(old(world), world, n)
      ensures res == Done ==> world == Drop(old(world), n)
      ensures res == Failed ==> errors > old(errors)
    {
      if n !in world.dirs {
        assert Drop(world, n) == world;
        return Done;
      }
      var stopped: bool := *;
      if stopped && (stops || Other in broken) {
        var left: Dir := *;
        if PartOf(left, world.dirs[n]) {
          ShrinkKeeps(world, spoiled, n, left);
          world := Put(world, n, left);
        }
        res := Stopped();
      } else {
        DropKeeps(world, spoiled, n);
        world := Drop(world, n);
        res := CrashOr(Done);
      }
    }

    /** The process stops, or an access failed. */
    method Stopped() returns (res: Res)
      requires stops || Other in broken
      modifies this
      ensures world == old(world) && Counted(broken, old(errors), errors)
      ensures if res == Failed then errors > old(errors) else res == Crashed && stops
    {
      var fails := Fails(Other);
      if !fails && !stops {
        fails := true;
        errors := errors + 1;
      }
      res := if fails then Failed else Crashed;
    }

    /** A point where the process may stop. */
    method CrashOr(go: Res) returns (res: Res)
      ensures res == go || (res == Crashed && stops)
    {
      var crash: bool := *;
      res := if stops && crash then Crashed else go;
    }

    /** Whether an access fails. */
    method Fails(a: Access) returns (fails: bool)
      modifies this
      ensures world == old(world) && errors == old(errors) + if fails then 1 else 0
      ensures fails ==> a in broken
      ensures a in broken && a != Other ==> fails
    {
      fails := a in broken;
      if fails && a == Other {
        fails := *;
      }
      if fails {
        errors := errors + 1;
      }
    }

    /** Insert: a path that has a row is refused. */
    method InsertRow(row: Row, a: Access) returns (res: Res)
      requires Valid() && row.path.at < world.now && row.createdAt < world.now
      requires !Recorded(world, row.path) ==> row.ok && row.path !in spoiled ==> Kept(world, row)
      modifies this
      ensures res == Crashed ==> stops
      ensures Valid()
      ensures world == old(world) || (!Recorded(old(world), row.path) && world == Record(old(world), row))
      ensures res == Done ==> !Recorded(old(world), row.path) && world == Record(old(world), row)
      ensures res == Failed ==> world == old(world)
      ensures res == Failed ==> Recorded(old(world), row.path) || (errors > old(errors) && a in broken)
      ensures a in broken && a != Other ==> world == old(world)
      ensures Counted(broken, old(errors), errors)
    {
      if Recorded(world, row.path) {
        return Failed;
      }
      var fails := Fails(a);
      if fails {
        return Failed;
      }
      RecordKeeps(world, spoiled, row);
      world := Record(world, row);
      res := CrashOr(Done);
    }

    /** adopt: Failed leaves the version alone; missed: because its manifest, its job or its row could not be
        read or written. */
    method Adopt(v: VersionPath) returns (res: Res, ghost missed: bool)
      requires Valid() && Version(v) in world.dirs && !Recorded(world, v) && Mine(s, Version(v))
      requires Enter(v.folder) !in broken && Stat(v) !in broken
      modifies this
      ensures res == Crashed ==> stops
      ensures Valid() && Counted(broken, old(errors), errors)
      ensures world.now >= old(world).now && world.dirs == old(world).dirs
      ensures world.rows == old(world).rows || Grew(s, old(world), world, v)
      ensures RowsExact(old(world), world, broken)
      ensures res == Done ==> Grew(s, old(world), world, v)
      ensures res == Failed ==> world.rows == old(world).rows
      ensures res == Failed && !missed ==> !Adoptable(s, v, old(world).dirs[Version(v)])
      ensures missed ==> res == Failed && errors > old(errors) && MayMiss(s, old(world), broken, v)
      ensures errors == old(errors) && !Adoptable(s, v, old(world).dirs[Version(v)]) ==> world == old(world)
    {
      res, missed := CheckManifest(v);
      if res == Done {
        res := RecordAdopted(v);
        missed := res == Failed;
      }
    }

    /** The checks of adopt. */
    method CheckManifest(v: VersionPath) returns (res: Res, ghost missed: bool)
      requires Version(v) in world.dirs
      modifies this
      ensures world == old(world) && Counted(broken, old(errors), errors) && res != Crashed
      ensures res == Done ==> Adoptable(s, v, world.dirs[Version(v)]) && ReadManifest(v) !in broken
      ensures res == Failed && !missed ==> !Adoptable(s, v, world.dirs[Version(v)])
      ensures missed ==> res == Failed && errors > old(errors) && MayMiss(s, world, broken, v)
    {
      missed := false;
      var fails := Fails(ReadManifest(v));
      var d := world.dirs[Version(v)];
      if fails || !d.manifest.Good? {
        return Failed, fails;
      }
      var m := d.manifest.m;
      if m.integration != s.it.id || m.app != s.it.app {
        return Failed, false;
      }
      if v.folder != s.it.folder {
        var here: bool;
        here, fails := IsWrittenHere(v, m);
        if fails || !here {
          return Failed, fails;
        }
      }
      res := if m.zipName.None? then Failed else Done;
    }

    /** The rest of adopt: verify and record. */
    method RecordAdopted(v: VersionPath) returns (res: Res)
      requires Valid() && Version(v) in world.dirs && !Recorded(world, v) && Mine(s, Version(v))
      requires Adoptable(s, v, world.dirs[Version(v)])
      requires Enter(v.folder) !in broken && Stat(v) !in broken && ReadManifest(v) !in broken
      modifies this
      ensures res == Crashed ==> stops
      ensures Valid() && Counted(broken, old(errors), errors)
      ensures world.now >= old(world).now && world.dirs == old(world).dirs
      ensures world.rows == old(world).rows || Grew(s, old(world), world, v)
      ensures RowsExact(old(world), world, broken)
      ensures res == Done ==> Grew(s, old(world), world, v)
      ensures res == Failed ==> errors > old(errors) && AddRow(v) in broken && world.rows == old(world).rows
    {
      var d := world.dirs[Version(v)];
      var m := d.manifest.m;
      ghost var before := world;
      var ok := VerifyZip(v, d, m);
      assert DirPast(Version(v), d, world.now);
      var createdAt;
      if m.createdAt.Some? {
        createdAt := m.createdAt.value;
      } else {
        createdAt := ReadClock();
      }
      var row := Row(v, s.it.id, createdAt, ok, Some(m));
      if AddRow(v) !in broken {
        RecordsAdopted(s, before, world.now, row, broken);
      }
      res := InsertRow(row, AddRow(v));
    }

    /** writtenHere: this job, or one of this integration in the database. */
    method IsWrittenHere(v: VersionPath, m: Manifest) returns (here: bool, fails: bool)
      modifies this
      ensures world == old(world) && errors == old(errors) + if fails then 1 else 0
      ensures !fails ==> here == WrittenHere(s, m)
      ensures fails ==> FindJob(v) in broken && !Names(m, s.job)
    {
      fails := false;
      if m.job.None? || m.job.value.id <= 0 {
        here := false;
      } else if m.job.value.id == s.job.id {
        here := m.job.value.queuedAt == s.job.queuedAt;
      } else {
        here := m.job.value in s.history;
        fails := Fails(FindJob(v));
      }
    }

    /** The integrity of an adopted version: ok needs the zip to read back as its manifest says. */
    method VerifyZip(v: VersionPath, d: Dir, m: Manifest) returns (ok: bool)
      requires d.manifest == Good(m) && m.zipName.Some?
      modifies this
      ensures world == old(world) && Counted(broken, old(errors), errors)
      ensures ok <==> m.ok && Whole(d, m) && ReadZip(v) !in broken
    {
      ok := m.ok;
      var fails := Fails(ReadZip(v));
      if fails || m.zipName.value !in d.zips || d.zips[m.zipName.value] != m.zip {
        ok := false;
      }
    }

    /** The clock, which has moved on when it is read again. */
    method ReadClock() returns (t: Time)
      requires Valid()
      modifies this
      ensures Valid() && errors == old(errors)
      ensures t == old(world).now && world == old(world).(now := t + 1)
    {
      t := world.now;
      TickKeeps(world, spoiled);
      world := world.(now := world.now + 1);
    }

    /** One name of the listing in recover. */
    method RecoverName(n: DirName) returns (res: Res, ghost missed: bool)
      requires Valid() && n in world.dirs && Mine(s, n)
      modifies this
      ensures res == Crashed ==> stops
      ensures Valid() && Counted(broken, old(errors), errors) && RecoveredName(s, old(world), world, n)
      ensures RowsExact(old(world), world, broken)
      ensures res == Done && errors == old(errors) ==> Settled(s, world, n)
      ensures res == Done && n.Version? && !missed ==> Settled(s, world, n)
      ensures missed ==> errors > old(errors) && n.Version? && n in world.dirs && !Recorded(world, n.v)
      ensures missed ==> MayMiss(s, old(world), broken, n.v)
      ensures errors == old(errors) && Settled(s, old(world), n) ==> world == old(world)
      ensures res == Failed ==> errors > old(errors)
    {
      res, missed := Done, false;
      var fails := Fails(Enter(FolderOf(n)));
      if fails {
        missed := n.Version? && !Recorded(world, n.v);
        return;
      }
      match n
      case Trash(v) =>
        fails := Fails(Other);
        if fails {
          return Failed, false;
        }
        if !Recorded(world, v) {
          res := RemoveTree(n);
          res := if res == Crashed then Crashed else Done;
        }
      case Partial(_, _) =>
        res := RemoveTree(n);
      case Version(v) =>
        fails := Fails(Other);
        if fails {
          return Failed, false;
        }
        if !Recorded(world, v) {
          fails := Fails(Stat(v));
          if fails {
            return Done, true;
          }
          ghost var before := world;
          res, missed := Adopt(v);
          if missed {
            SameRowsSameRecords(before, world);
          }
          res := if res == Crashed then Crashed else Done;
        }
    }

    /** recover, up to ownVersion: every name of this integration's folders, in any order. missed: the
        versions it would have recorded, had an access not failed. */
    method RecoverAll() returns (res: Res, ghost missed: set<VersionPath>)
      requires Valid()
      modifies this
      ensures res == Crashed ==> stops
      ensures Valid() && Counted(broken, old(errors), errors) && Recovering(s, old(world), world)
      ensures res == Done && errors == old(errors) ==> Clean(s, world)
      ensures res == Done ==> Missed(s, world, missed) && RowsExact(old(world), world, broken)
      ensures forall v :: v in missed ==> MayMiss(s, old(world), broken, v)
      ensures missed != {} ==> errors > old(errors)
      ensures errors == old(errors) && Clean(s, old(world)) ==> world == old(world)
      ensures res == Failed ==> errors > old(errors)
    {
      missed := {};
      ghost var before := world;
      var fails := Fails(Other);
      if fails {
        return Failed, {};
      }
      var rest := set n | n in world.dirs && Mine(s, n);
      while rest != {}
        invariant Valid() && Counted(broken, old(errors), errors)
        invariant Underway(s, before, world, rest, missed, broken, errors == old(errors))
        invariant missed != {} ==> errors > old(errors)
        decreases rest
      {
        var n :| n in rest;
        res, missed := RecoverNext(before, n, rest, missed, old(errors));
        if res != Done {
          return;
        }
        rest := rest - {n};
      }
      res := Done;
    }

    /** One turn of its loop. */
    method RecoverNext(ghost before: World, n: DirName, ghost rest: set<DirName>, ghost missed: set<VersionPath>,
                       ghost start: nat)
      returns (res: Res, ghost missed': set<VersionPath>)
      requires Valid() && n in rest && errors >= start && (missed != {} ==> errors > start)
      requires Underway(s, before, world, rest, missed, broken, errors == start)
      modifies this
      ensures res == Crashed ==> stops
      ensures Valid() && Counted(broken, old(errors), errors)
      ensures res == Done ==> Underway(s, before, world, rest - {n}, missed', broken, errors == start)
      ensures missed' != {} ==> errors > start
      ensures res != Done ==> Recovering(s, before, world) && forall v :: v in missed' ==> MayMiss(s, before, broken, v)
      ensures res != Done && errors == start && Clean(s, before) ==> world == before
      ensures res == Failed ==> errors > old(errors)
    {
      ghost var mid := world;
      ghost var gap;
      res, gap := RecoverName(n);
      missed' := missed;
      if res != Done {
        RecoveringOn(s, before, mid, world, n);
        assert Clean(s, before) ==> Settled(s, before, n);
      } else {
        UnderwayOn(s, before, mid, world, n, rest, missed, gap, broken, errors == start);
        missed' := if gap then missed + {n.v} else missed;
      }
    }

    /** Recovering again, with nothing in between, finds nothing to do. */
    method RecoverTwice() returns (res: Res, ghost once: World)
      requires Valid()
      modifies this
      ensures res == Crashed ==> stops
      ensures res == Done && errors == old(errors) ==> world == once && Clean(s, world)
    {
      ghost var missed;
      res, missed := RecoverAll();
      once := world;
      if res == Done {
        res, missed := RecoverAll();
      }
    }

    /** ownVersion: a version an earlier attempt of this job wrote and that is recorded now; a resumed attempt
        returns one if and only if there is one whose directory it can look at. */
    method OwnVersion() returns (res: Res, own: Option<RowId>)
      modifies this
      ensures world == old(world) && Counted(broken, old(errors), errors) && res != Crashed
      ensures own.Some? ==> res == Done && resumed && IsOwn(s, world, own.value)
      ensures own.Some? ==> Look(world.rows[own.value].path) !in broken
      ensures res == Failed ==> errors > old(errors)
      ensures res == Done && own.None? && resumed ==>
        forall i :: IsOwn(s, world, i) ==> Look(world.rows[i].path) in broken
      ensures res == Done && own.None? && resumed && errors == old(errors) ==> forall i :: !IsOwn(s, world, i)
    {
      own, res := None, Done;
      if !resumed {
        return;
      }
      var fails := Fails(Other);
      if fails {
        return Failed, None;
      }
      var rest := Listed(s, world);
      while rest != {}
        invariant world == old(world) && Counted(broken, old(errors), errors) && rest <= Listed(s, world)
        invariant forall i :: IsOwn(s, world, i) && i !in rest ==> Look(world.rows[i].path) in broken
        invariant errors == old(errors) ==> forall i :: IsOwn(s, world, i) ==> i in rest
        decreases rest
      {
        var i :| i in rest;
        rest := rest - {i};
        var row := world.rows[i];
        if RowNames(row, s.job) {
          fails := Fails(Look(row.path));
          if !fails && Version(row.path) in world.dirs && (row.ok || !row.manifest.value.ok) {
            return Done, Some(i);
          }
        }
      }
    }

    /** A row goes, then what is left of its trash; Failed keeps the row. */
    method RemoveRow(i: RowId) returns (res: Res)
      requires Valid() && i in world.rows && Version(world.rows[i].path) !in world.dirs
      modifies this
      ensures res == Crashed ==> stops
      ensures Valid() && Counted(broken, old(errors), errors) && OnlyTouches(old(world), world, i)
      ensures res == Failed ==> errors > old(errors) && world == old(world)
      ensures res == Done ==> i !in world.rows
      ensures res == Done && errors == old(errors) ==> Trash(old(world).rows[i].path) !in world.dirs
    {
      var v := world.rows[i].path;
      var fails := Fails(Other);
      if fails {
        return Failed;
      }
      ghost var before := world;
      UnrecordKeeps(world, spoiled, i);
      world := Unrecord(world, i);
      NotRecorded(before, i);
      res := CrashOr(Done);
      if res == Done {
        ghost var mid := world;
        res := RemoveTree(Trash(v));
        RemovedAfterRow(before, mid, world, i);
        res := if res == Crashed then Crashed else Done;
      }
    }

    /** dropLost: the row of a version that is gone goes. */
    method DropLost(i: RowId) returns (res: Res, dropped: bool)
      requires Valid() && i in world.rows
      modifies this
      ensures res == Crashed ==> stops
      ensures Valid() && Counted(broken, old(errors), errors) && res != Failed
      ensures OnlyTouches(old(world), world, i)
      ensures if dropped then Lost(old(world), old(world).rows[i]) else world == old(world) && res == Done
      ensures dropped ==> IsGone(old(world), old(world).rows[i])
      ensures errors == old(errors) && !dropped ==> !IsGone(old(world), old(world).rows[i])
      ensures res == Done && dropped ==> i !in world.rows
      ensures errors == old(errors) && res == Done ==>
        if dropped then Trash(old(world).rows[i].path) !in world.dirs else !Lost(world, world.rows[i])
    {
      var fails := Fails(Other);
      LostIff(world, world.rows[i]);
      if fails || !Lost(world, world.rows[i]) {
        return Done, false;
      }
      res := RemoveRow(i);
      dropped := res != Failed;
      res := if res == Crashed then Crashed else Done;
    }

    /** restoreVersion: a kept version gets its name back. */
    method RestoreVersion(i: RowId) returns (res: Res)
      requires Valid() && i in world.rows
      modifies this
      ensures res == Crashed ==> stops
      ensures Valid() && Counted(broken, old(errors), errors) && res != Failed
      ensures OnlyTouches(old(world), world, i) && i in world.rows
      ensures Version(world.rows[i].path) in old(world).dirs ==> world == old(world)
      ensures errors == old(errors) && res == Done && !Lost(old(world), world.rows[i]) && Readable(world.rows[i]) ==>
        Version(world.rows[i].path) in world.dirs
      ensures world == old(world) || IsRestored(old(world), world, i)
      ensures errors == old(errors) && CanBeRestored(old(world), i) ==> IsRestored(old(world), world, i)
    {
      var row := world.rows[i];
      var v := row.path;
      if Version(v) in world.dirs || Trash(v) !in world.dirs {
        return Done;
      }
      var fails := Fails(Other);
      if fails {
        return Done;
      }
      LostIff(world, row);
      if CheckComplete(world.dirs[Trash(v)], row) != Complete {
        return Done;
      }
      assert Recorded(world, v);
      RestoreKeeps(world, spoiled, v);
      world := Move(world, Trash(v), Version(v));
      res := CrashOr(Done);
    }

    /** TrashVersion: the version leaves its name. */
    method TrashVersion(i: RowId) returns (res: Res)
      requires Valid() && i in world.rows
      modifies this
      ensures res == Crashed ==> stops
      ensures Valid() && Counted(broken, old(errors), errors) && OnlyTouches(old(world), world, i) && i in world.rows
      ensures res == Failed ==> errors > old(errors) && world == old(world)
      ensures res == Done ==> Version(world.rows[i].path) !in world.dirs
    {
      var v := world.rows[i].path;
      var fails := Fails(Other);
      if fails {
        return Failed;
      }
      res := Done;
      if Version(v) in world.dirs {
        TrashKeeps(world, spoiled, v);
        world := Move(world, Version(v), Trash(v));
        res := CrashOr(Done);
      }
    }

    /** One version the retention does not keep: its name goes, then its row, then its files. */
    method PruneVersion(i: RowId) returns (res: Res)
      requires Valid() && i in world.rows
      modifies this
      ensures res == Crashed ==> stops
      ensures Valid() && Counted(broken, old(errors), errors) && res != Failed
      ensures OnlyTouches(old(world), world, i)
      ensures errors == old(errors) && res == Done ==> i !in world.rows && Trash(old(world).rows[i].path) !in world.dirs
    {
      ghost var before := world;
      res := TrashVersion(i);
      if res == Done {
        ghost var mid := world;
        res := RemoveRow(i);
        TouchesTwice(before, mid, world, i);
      }
      res := if res == Crashed then Crashed else Done;
    }

    /** One turn of the first loop. */
    method DropNext(ghost before: World, ghost rest: set<RowId>, ghost present: set<RowId>, i: RowId, ghost start: nat)
      returns (res: Res, dropped: bool)
      requires Valid() && RowsDistinct(before) && Touched(before, world, Listed(s, before)) && errors >= start
      requires Dropping(before, world, Listed(s, before), rest, present, errors == start) && i in rest
      modifies this
      ensures res == Crashed ==> stops
      ensures Valid() && Counted(broken, old(errors), errors) && res != Failed && (res == Crashed ==> dropped)
      ensures Touched(before, world, Listed(s, before))
      ensures Dropping(before, world, Listed(s, before), rest - {i}, if dropped then present else present + {i},
        res == Done && errors == start)
      ensures !dropped ==> i in before.rows && i in world.rows && world.rows[i] == before.rows[i]
    {
      ghost var mid, clean := world, errors == start;
      assert DropStatus(before, mid, rest, present, clean, i);
      res, dropped := DropLost(i);
      TouchedOne(before, mid, world, Listed(s, before), i);
      DroppingOn(before, mid, world, Listed(s, before), rest, present, clean, i, dropped,
        res == Done && errors == start);
    }

    /** The first loop of prune: rows of lost versions go; cands is what retention sees. */
    method DropAllLost() returns (res: Res, cands: seq<Retention.Version>, present: set<RowId>, ghost rest: set<RowId>)
      requires Valid()
      modifies this
      ensures res == Crashed ==> stops
      ensures Valid() && Counted(broken, old(errors), errors) && res != Failed
      ensures Touched(old(world), world, Listed(s, old(world)))
      ensures Dropping(old(world), world, Listed(s, old(world)), rest, present, res == Done && errors == old(errors))
      ensures res == Done ==> rest == {} && CandsAre(cands, old(world), present)
    {
      ghost var before := world;
      ghost var ids := Listed(s, world);
      var left := Listed(s, world);
      cands, present, rest := [], {}, left;
      while left != {}
        invariant Valid() && Counted(broken, old(errors), errors) && Touched(before, world, ids) && rest == left
        invariant Dropping(before, world, ids, rest, present, errors == old(errors))
        invariant CandsAre(cands, before, present)
        decreases left
      {
        var i :| i in left;
        var dropped;
        res, dropped := DropNext(before, rest, present, i, old(errors));
        left, rest := left - {i}, rest - {i};
        if res == Crashed {
          return;
        }
        if !dropped {
          CandsGrow(cands, before, present, i);
          cands := cands + [View(i, world.rows[i])];
          present := present + {i};
        }
      }
      res := Done;
    }

    /** One turn of the second loop. */
    method RestoreNext(ghost before: World, ghost present: set<RowId>, ghost gone: set<RowId>, ghost rest: set<RowId>,
                       i: RowId, ghost start: nat)
      returns (res: Res)
      requires Valid() && RowsDistinct(before) && Touched(before, world, Listed(s, before)) && errors >= start
      requires Pruning(before, world, Listed(s, before), present, gone, rest, gone, errors == start)
      requires i in rest && rest <= present - gone && present <= Listed(s, before)
      modifies this
      ensures res == Crashed ==> stops
      ensures Valid() && Counted(broken, old(errors), errors) && res != Failed
      ensures Touched(before, world, Listed(s, before))
      ensures Pruning(before, world, Listed(s, before), present, gone, rest - {i}, gone, res == Done && errors == start)
    {
      ghost var mid, clean := world, errors == start;
      StillThere(before, world, present, gone, rest, gone, clean, s, i);
      res := RestoreVersion(i);
      TouchedOne(before, mid, world, Listed(s, before), i);
      RestoringOn(before, mid, world, Listed(s, before), present, gone, rest, clean, i, res == Done && errors == start);
    }

    /** The second loop of prune: versions the retention keeps get their names back. */
    method RestoreKept(ghost before: World, present: set<RowId>, gone: set<RowId>, ghost start: nat)
      returns (res: Res, left: set<RowId>)
      requires Valid() && RowsDistinct(before) && Touched(before, world, Listed(s, before)) && errors >= start
      requires Pruning(before, world, Listed(s, before), present, gone, present - gone, gone, errors == start)
      requires present <= Listed(s, before)
      modifies this
      ensures res == Crashed ==> stops
      ensures Valid() && Counted(broken, old(errors), errors) && res != Failed
      ensures Touched(before, world, Listed(s, before))
      ensures Pruning(before, world, Listed(s, before), present, gone, left, gone, res == Done && errors == start)
      ensures res == Done ==> left == {}
    {
      res, left := Done, present - gone;
      while left != {} && res == Done
        invariant res == Crashed ==> stops
        invariant Valid() && Counted(broken, old(errors), errors) && res != Failed
        invariant left <= present - gone
        invariant Touched(before, world, Listed(s, before))
        invariant Pruning(before, world, Listed(s, before), present, gone, left, gone, res == Done && errors == start)
        decreases left
      {
        var i :| i in left;
        res := RestoreNext(before, present, gone, left, i, start);
        left := left - {i};
      }
    }

    /** One turn of the third loop. */
    method PruneNext(ghost before: World, ghost present: set<RowId>, ghost gone: set<RowId>, ghost left: set<RowId>,
                     i: RowId, ghost start: nat)
      returns (res: Res)
      requires Valid() && RowsDistinct(before) && Touched(before, world, Listed(s, before)) && errors >= start
      requires Pruning(before, world, Listed(s, before), present, gone, {}, left, errors == start)
      requires i in left && left <= gone <= present <= Listed(s, before)
      modifies this
      ensures res == Crashed ==> stops
      ensures Valid() && Counted(broken, old(errors), errors) && res != Failed
      ensures Touched(before, world, Listed(s, before))
      ensures Pruning(before, world, Listed(s, before), present, gone, {}, left - {i}, res == Done && errors == start)
    {
      ghost var mid, clean := world, errors == start;
      StillThere(before, world, present, gone, {}, left, clean, s, i);
      res := PruneVersion(i);
      TouchedOne(before, mid, world, Listed(s, before), i);
      PruningOn(before, mid, world, Listed(s, before), present, gone, left, clean, i, res == Done && errors == start);
    }

    /** The third loop of prune: the others go. */
    method PruneGone(ghost before: World, ghost present: set<RowId>, remove: seq<RowId>, ghost gone: set<RowId>,
        ghost start: nat)
      returns (res: Res, ghost left: set<RowId>)
      requires Valid() && RowsDistinct(before) && Touched(before, world, Listed(s, before)) && errors >= start
      requires Pruning(before, world, Listed(s, before), present, gone, {}, gone, errors == start)
      requires gone <= present <= Listed(s, before) && (forall i :: i in remove <==> i in gone)
      requires forall j, k :: 0 <= j < k < |remove| ==> remove[j] != remove[k]
      modifies this
      ensures res == Crashed ==> stops
      ensures Valid() && Counted(broken, old(errors), errors) && res != Failed
      ensures Touched(before, world, Listed(s, before))
      ensures Pruning(before, world, Listed(s, before), present, gone, {}, left, res == Done && errors == start)
      ensures res == Done && errors == start ==> left == {}
    {
      res, left := Done, gone;
      assert IdsOf(remove[0..]) == gone;
      var k, cancelled := 0, false;
      while k < |remove| && res == Done && !cancelled
        invariant k <= |remove| && left == IdsOf(remove[k..]) && left <= gone && (cancelled ==> errors > start)
        invariant res == Crashed ==> stops
        invariant Valid() && Counted(broken, old(errors), errors) && res != Failed
        invariant Touched(before, world, Listed(s, before))
        invariant Pruning(before, world, Listed(s, before), present, gone, {}, left, res == Done && errors == start)
        decreases |remove| - k, !cancelled
      {
        cancelled := Fails(Other);
        if !cancelled {
          IdsAfter(remove, k);
          res := PruneNext(before, present, gone, left, remove[k], start);
          left := left - {remove[k]};
          k := k + 1;
        }
      }
    }

    /** prune, after a successful backup; its problems leave the backup done. gone is what the retention
        gave up, of the versions present at the destination. */
    method Prune()
      returns (res: Res, ghost cands: seq<Retention.Version>, ghost present: set<RowId>, ghost gone: set<RowId>,
        ghost toRestore: set<RowId>, ghost toPrune: set<RowId>)
      requires Valid()
      modifies this
      ensures res == Crashed ==> stops
      ensures Valid() && Counted(broken, old(errors), errors) && res != Failed
      ensures Touched(old(world), world, Listed(s, old(world)))
      ensures Pruning(old(world), world, Listed(s, old(world)), present, gone, toRestore, toPrune,
                      res == Done && errors == old(errors))
      ensures gone <= present <= Listed(s, old(world)) && GivenUp(s, week, old(world), cands, present, gone)
      ensures res == Done && errors == old(errors) ==> toRestore == {} && toPrune == {}
      ensures res == Done && errors == old(errors) ==> PrunedRight(s, week, old(world), cands, present, gone, world)
    {
      ghost var before, start := world, errors;
      cands, present, gone, toRestore, toPrune := [], Listed(s, world), {}, Listed(s, world), {};
      var fails := Fails(Other);
      if fails {
        return Done, cands, present, gone, toRestore, toPrune;
      }
      var seen, there;
      ghost var rest;
      res, seen, there, rest := DropAllLost();
      DroppedSoFar(before, world, Listed(s, before), rest, there, errors == start);
      if res == Crashed {
        present := there + rest;
        toRestore := present;
        return;
      }
      var remove, out := Select(seen, before, there);
      cands, present, gone, toRestore, toPrune := seen, there, out, there - out, out;
      DroppedNow(before, world, Listed(s, before), there, out, errors == start);
      assert errors == start ==> forall i :: i in there ==> DropStatus(before, world, {}, there, true, i);
      res, toRestore := RestoreKept(before, there, out, start);
      if res == Done {
        res, toPrune := PruneGone(before, there, remove, out, start);
      }
      if res == Done && errors == start {
        PrunedRightAtEnd(s, week, before, cands, present, gone, world);
      }
    }

    /** What the retention removes. */
    method Select(seen: seq<Retention.Version>, ghost before: World, ghost there: set<RowId>)
      returns (remove: seq<RowId>, out: set<RowId>)
      requires world.now == before.now && CandsAre(seen, before, there)
      ensures out <= there && GivenUp(s, week, before, seen, there, out) && forall i :: i in remove <==> i in out
      ensures forall j, k :: 0 <= j < k < |remove| ==> remove[j] != remove[k]
      ensures forall i :: i in there ==>
        (i in out <==> Retention.Removed(seen, View(i, before.rows[i]), s.daily, s.weekly, week, before.now))
    {
      var ids;
      ghost var removed;
      ids, removed := Retention.Prune(seen, s.daily, s.weekly, world.now, week);
      RemovedAreThere(s, week, before, seen, there, ids, removed);
      remove := ids;
      out := set i | i in remove;
    }

    /** markFailed: the store only inserts and deletes, so the row is replaced. lost: the second half failed,
        and the version is left without a row. */
    method MarkFailed(i: RowId) returns (res: Res, ghost lost: bool)
      requires Valid() && i in world.rows && world.rows[i].ok && world.rows[i].path in spoiled
      modifies this
      ensures res == Crashed ==> stops
      ensures Valid() && Counted(broken, old(errors), errors)
      ensures world.dirs == old(world).dirs && world.now == old(world).now
      ensures SameClaims(s.job, old(world), world, spoiled)
      ensures forall j :: j in old(world).rows && j != i ==> j in world.rows && world.rows[j] == old(world).rows[j]
      ensures res != Crashed && !lost ==> forall v :: Recorded(old(world), v) ==> Recorded(world, v)
      ensures lost ==> errors > old(errors) && !Harmless(broken)
      ensures res == Done ==> MarkedFailed(old(world), world, i)
      ensures res == Failed ==> errors > old(errors)
    {
      lost := false;
      var row := world.rows[i];
      var fails := Fails(Other);
      if fails {
        return Failed, false;
      }
      ghost var before := world;
      UnrecordKeeps(world, spoiled, i);
      UnrecordSameClaims(s, before, spoiled, i);
      world := Unrecord(world, i);
      NotRecorded(before, i);
      res := CrashOr(Done);
      if res == Done {
        var failed := row.(ok := false);
        if OneClaim(before, s.job, spoiled) {
          RecordSameClaims(s, world, spoiled, failed);
          SameClaimsTwice(s.job, before, world, Record(world, failed), spoiled);
        }
        ReplacedRow(before, i, failed);
        ghost var id := world.nextRow;
        res := InsertRow(failed, ReplaceRow(row.path));
        lost := res == Failed;
        assert res == Done ==> id in world.rows && world.rows[id] == failed;
      }
    }

    /** intactCopy and isDamage: whether the version of row i reads back as recorded. */
    method ReadBack(i: RowId) returns (intact: bool, damaged: bool)
      requires i in world.rows && world.rows[i].manifest.Some?
      modifies this
      ensures world == old(world) && Counted(broken, old(errors), errors) && !(intact && damaged)
      ensures intact ==> WholeFiles(world, world.rows[i])
      ensures damaged ==> Version(world.rows[i].path) in world.dirs && !WholeFiles(world, world.rows[i])
      ensures errors == old(errors) ==> (intact <==> WholeFiles(world, world.rows[i]))
      ensures errors == old(errors) && Readable(world.rows[i]) && Version(world.rows[i].path) in world.dirs ==>
        (damaged <==> !WholeFiles(world, world.rows[i]))
    {
      var row := world.rows[i];
      var m := row.manifest.value;
      var fails := Fails(Other);
      if fails || Version(row.path) !in world.dirs {
        return false, false;
      }
      var d := world.dirs[Version(row.path)];
      match CheckComplete(d, row.(ok := true))
      case Incomplete =>
        return false, true;
      case Unknown =>
        return false, false;
      case Complete =>
        fails := Fails(Other);
        if fails {
          return false, false;
        }
        intact := d.zips[m.zipName.value] == m.zip;
        damaged := !intact;
    }

    /** One recorded ok version of the chosen backup: whether it reads back; a damaged one is marked failed. */
    method CheckCopy(i: RowId) returns (res: Res, intact: bool, ghost lost: bool)
      requires Valid() && i in world.rows && world.rows[i].ok && world.rows[i].manifest.Some?
      modifies this
      ensures res == Crashed ==> stops
      ensures Valid() && Counted(broken, old(errors), errors) && res != Failed
      ensures world.dirs == old(world).dirs && world.now == old(world).now
      ensures SameClaims(s.job, old(world), world, spoiled)
      ensures !lost && res == Done ==> forall v :: Recorded(old(world), v) ==> Recorded(world, v)
      ensures lost ==> errors > old(errors) && !Harmless(broken)
      ensures forall j :: j in old(world).rows && j != i ==> j in world.rows && world.rows[j] == old(world).rows[j]
      ensures RowsKept(old(world), world, spoiled)
      ensures intact ==> res == Done && world == old(world) && WholeFiles(world, world.rows[i])
      ensures res == Done && errors == old(errors) && !intact ==> !WholeFiles(old(world), old(world).rows[i])
      ensures res == Done && errors == old(errors) && Version(old(world).rows[i].path) in old(world).dirs ==>
        Readable(old(world).rows[i]) && !WholeFiles(old(world), old(world).rows[i]) ==>
        MarkedFailed(old(world), world, i)
    {
      res, intact, lost := Done, false, false;
      var fails := Fails(Other);
      if !fails && Lost(world, world.rows[i]) {
        return;
      }
      var damaged;
      intact, damaged := ReadBack(i);
      fails := Fails(Other);
      if damaged && !fails {
        DamagedRow(world, spoiled, i);
        res, lost := MarkFailed(i);
        res := if res == Crashed then Crashed else Done;
      }
    }

    /** The row of a set that was recorded last. */
    method Newest(rest: set<RowId>) returns (i: RowId)
      requires rest != {} && rest <= world.rows.Keys
      ensures i in rest && forall j :: j in rest && j != i ==> Newer(world, i, j)
    {
      i :| i in rest;
      var left := rest - {i};
      while left != {}
        invariant i in rest && left <= rest && i !in left
        invariant forall j :: j in rest && j != i && j !in left ==> Newer(world, i, j)
        decreases left
      {
        var j :| j in left;
        left := left - {j};
        if Newer(world, j, i) {
          i := j;
        }
      }
    }

    /** alreadyCopied: the newest recorded version of backup b decides that is intact (copy) or failed its own
        verification (bad); one in between that does not read back is marked failed when it is damaged. */
    method AlreadyCopied(b: Backup) returns (res: Res, copy: Option<RowId>, bad: bool, ghost lost: bool)
      requires Valid()
      modifies this
      ensures res == Crashed ==> stops
      ensures Valid() && Counted(broken, old(errors), errors)
      ensures res == Failed ==> errors > old(errors)
      ensures world.dirs == old(world).dirs && world.now == old(world).now
      ensures SameClaims(s.job, old(world), world, spoiled)
      ensures !lost && res == Done ==> forall v :: Recorded(old(world), v) ==> Recorded(world, v)
      ensures lost ==> errors > old(errors) && !Harmless(broken)
      ensures RowsKept(old(world), world, spoiled)
      ensures copy.Some? ==> res == Done && !bad
      ensures copy.Some? ==> IsCopy(s, world, b, copy.value) && IsCopy(s, old(world), b, copy.value)
      ensures bad ==> res == Done && exists i :: IsBad(s, old(world), b, i)
      ensures res == Done && errors == old(errors) && copy.Some? ==> Decides(s, old(world), b, copy.value)
      ensures res == Done && errors == old(errors) && bad ==> KnownBad(s, old(world), b)
      ensures res == Done && errors == old(errors) && copy.None? && !bad ==>
        forall i :: !IsCopy(s, old(world), b, i) && !IsBad(s, old(world), b, i)
      ensures res == Done && errors == old(errors) ==> forall i :: IsDamaged(s, old(world), b, i) ==>
        (forall j :: Decides(s, old(world), b, j) ==> Newer(old(world), i, j)) ==> MarkedFailed(old(world), world, i)
    {
      copy, bad, res, lost := None, false, Done, false;
      var fails := Fails(Other);
      if fails {
        return Failed, None, false, false;
      }
      ghost var before := world;
      var rest := Listed(s, world);
      while rest != {}
        invariant Valid() && Counted(broken, old(errors), errors) && res == Done && copy.None? && !bad
        invariant StillAsListed(s, before, world, rest)
        invariant errors == old(errors) ==> LookedAt(s, before, b, rest) && Demoted(s, before, world, b, rest)
        invariant SameClaims(s.job, before, world, spoiled)
        invariant !lost ==> forall v :: Recorded(before, v) ==> Recorded(world, v)
        invariant (lost ==> errors > old(errors) && !Harmless(broken)) && RowsKept(before, world, spoiled)
        decreases rest
      {
        var i := Newest(rest);
        ghost var mid, gap := world, false;
        var intact;
        res, intact, bad, gap := LookAtRow(b, i, before, rest, old(errors));
        SameClaimsTwice(s.job, before, mid, world, spoiled);
        rest := rest - {i};
        lost := lost || gap;
        if res == Crashed || intact || bad {
          return res, if intact then Some(i) else None, bad, lost;
        }
      }
    }

    /** One row of the listing. */
    method LookAtRow(b: Backup, i: RowId, ghost before: World, ghost rest: set<RowId>, ghost start: nat)
      returns (res: Res, intact: bool, bad: bool, ghost lost: bool)
      requires Valid() && StillAsListed(s, before, world, rest) && i in rest && errors >= start
      requires forall j :: j in rest && j != i ==> Newer(world, i, j)
      requires errors == start ==> LookedAt(s, before, b, rest) && Demoted(s, before, world, b, rest)
      modifies this
      ensures res == Crashed ==> stops
      ensures Valid() && Counted(broken, old(errors), errors) && res != Failed && !(intact && bad)
      ensures StillAsListed(s, before, world, rest - {i}) && RowsKept(old(world), world, spoiled)
      ensures SameClaims(s.job, old(world), world, spoiled)
      ensures !lost && res == Done ==> forall v :: Recorded(old(world), v) ==> Recorded(world, v)
      ensures lost ==> errors > old(errors) && !Harmless(broken)
      ensures intact || bad ==> res == Done && world == old(world)
      ensures intact ==> IsCopy(s, world, b, i) && IsCopy(s, before, b, i)
      ensures bad ==> IsBad(s, before, b, i)
      ensures res == Done && errors == start ==>
        if intact || bad then Decides(s, before, b, i) else LookedAt(s, before, b, rest - {i})
      ensures res == Done && errors == start ==> Demoted(s, before, world, b, rest - {i})
    {
      res, intact, bad, lost := Done, false, false, false;
      ghost var mid := world;
      var row := world.rows[i];
      SameRow(s, before, mid, b, rest, i);
      if row.manifest.Some? && row.manifest.value.backup == b {
        if row.ok {
          res, intact, lost := CheckCopy(i);
        } else {
          bad := !row.manifest.value.ok;
        }
      }
      if res == Done && errors == start {
        LookedAtOn(s, before, mid, b, rest, i);
        DemotedOn(s, before, mid, world, b, rest, i);
      }
    }

    /** The partial directory as it fills: empty, with the zip, with the manifest. */
    method FillPartial(n: DirName, d: Dir, ghost sure: bool, ghost clean: bool) returns (res: Res)
      requires Valid() && n.Partial? && DirPast(n, d, world.now)
      requires (sure ==> Ready(s, world, spoiled)) && (clean ==> CleanBut(s, world, n))
      modifies this
      ensures res == Crashed ==> stops
      ensures Valid() && Counted(broken, old(errors), errors)
      ensures world.now == old(world).now && world.rows == old(world).rows
      ensures forall k :: k != n ==> SameAt(old(world), world, k)
      ensures (sure ==> Ready(s, world, spoiled)) && (clean ==> CleanBut(s, world, n))
      ensures res == Done ==> world == Put(old(world), n, d)
      ensures res == Failed ==> errors > old(errors)
    {
      var fails := Fails(Other);
      if fails {
        return Failed;
      }
      PutPartialKeeps(world, spoiled, n, d);
      if sure {
        ReadyForPartial(s, world, spoiled, n, d);
      }
      if clean {
        CleanButPartial(s, world, n, d);
      }
      world := Put(world, n, d);
      res := CrashOr(Done);
    }

    /** backup from the copy on: the zip, the manifest, the rename, the row. sure: this job has no version and
        recovery left none out; clean: recovery left nothing to do at all. */
    method WriteVersion(b: Backup, ok: bool, zip: Zip, ghost sure: bool, ghost clean: bool)
      returns (res: Res, row: RowId)
      requires Valid() && s.it.folder.id == s.it.id
      requires (sure ==> Ready(s, world, spoiled)) && (clean ==> Clean(s, world))
      modifies this
      ensures res == Crashed ==> stops
      ensures Valid() && Counted(broken, old(errors), errors) && RowsKept(old(world), world, {})
      ensures sure ==> OwnOk(s, world, spoiled)
      ensures res == Done ==> WroteAs(s, world, row, b, ok, zip) && world.rows[row].path.at >= old(world).now
      ensures res == Done && ok && OneClaim(old(world), s.job, spoiled) ==>
        (OneClaim(world, s.job, spoiled) <==> Quiet(s, old(world), spoiled))
      ensures res == Done && clean ==> Clean(s, world)
      ensures res == Failed ==> errors > old(errors)
    {
      row := 0;
      var n := Partial(s.it.folder, s.job.id);
      var v := VersionPath(s.it.folder, world.now);
      NewNameIsFree(world, spoiled, v);
      ghost var started := world;
      var created := StartVersion(sure, clean);
      assert v.at == created && world.dirs == started.dirs;
      ghost var empty := world;
      res := Fill(n, created, b, ok, zip, sure, clean);
      FilledSameClaims(s, started, empty, world, spoiled, n);
      if sure {
        QuietIsOwnOk(s, world, spoiled);
      }
      if res == Done {
        assert SameAt(empty, world, Version(v)) && SameAt(empty, world, Trash(v));
        res, row := Publish(n, v, b, ok, zip, sure, clean);
      }
    }

    /** The time of the new version. */
    method StartVersion(ghost sure: bool, ghost clean: bool) returns (created: Time)
      requires Valid() && (sure ==> Ready(s, world, spoiled)) && (clean ==> Clean(s, world))
      modifies this
      ensures Valid() && errors == old(errors) && (sure ==> Ready(s, world, spoiled)) && (clean ==> Clean(s, world))
      ensures created == old(world).now && world == old(world).(now := created + 1)
    {
      if sure {
        ReadyLater(s, world, spoiled);
      }
      if clean {
        CleanStays(s, world, world.(now := world.now + 1));
      }
      created := ReadClock();
    }

    /** What goes into the partial directory, step by step. */
    method Fill(n: DirName, created: Time, b: Backup, ok: bool, zip: Zip, ghost sure: bool, ghost clean: bool)
      returns (res: Res)
      requires Valid() && n.Partial? && created < world.now
      requires (sure ==> Ready(s, world, spoiled)) && (clean ==> CleanBut(s, world, n))
      modifies this
      ensures res == Crashed ==> stops
      ensures Valid() && Counted(broken, old(errors), errors)
      ensures world.now == old(world).now && world.rows == old(world).rows
      ensures forall k :: k != n ==> SameAt(old(world), world, k)
      ensures (sure ==> Ready(s, world, spoiled)) && (clean ==> CleanBut(s, world, n))
      ensures res == Done ==> n in world.dirs && world.dirs[n] == NewDir(s, created, b, ok, zip)
      ensures res == Failed ==> errors > old(errors)
    {
      ghost var before := world;
      res := FillPartial(n, Dir(NoManifest, map[]), sure, clean);
      if res == Done {
        ghost var made := world;
        res := FillPartial(n, Dir(NoManifest, map[b.name := zip]), sure, clean);
        SameButTwice(before, made, world, n);
      }
      if res == Done {
        ghost var copied := world;
        res := FillPartial(n, NewDir(s, created, b, ok, zip), sure, clean);
        SameButTwice(before, copied, world, n);
      }
    }

    /** RenameVersion and record. */
    method Publish(n: DirName, v: VersionPath, b: Backup, ok: bool, zip: Zip, ghost sure: bool, ghost clean: bool)
      returns (res: Res, row: RowId)
      requires Valid() && n.Partial? && n in world.dirs && world.dirs[n] == NewDir(s, v.at, b, ok, zip)
      requires v.folder == s.it.folder && s.it.folder.id == s.it.id && v !in spoiled && v.at < world.now
      requires Version(v) !in world.dirs && Trash(v) !in world.dirs && !Recorded(world, v)
      requires forall j :: j in world.rows ==> world.rows[j].createdAt < v.at
      requires (sure ==> Ready(s, world, spoiled)) && (clean ==> CleanBut(s, world, n))
      modifies this
      ensures res == Crashed ==> stops
      ensures Valid() && Counted(broken, old(errors), errors) && RowsKept(old(world), world, {})
      ensures sure ==> OwnOk(s, world, spoiled)
      ensures res == Done ==> WroteAs(s, world, row, b, ok, zip) && world.rows[row].path == v
      ensures res == Done && ok && OneClaim(old(world), s.job, spoiled) ==>
        (OneClaim(world, s.job, spoiled) <==> Quiet(s, old(world), spoiled))
      ensures res == Done && clean ==> Clean(s, world)
      ensures res == Failed ==> errors > old(errors)
    {
      row := world.nextRow;
      ghost var filled := world;
      if sure {
        QuietIsOwnOk(s, world, spoiled);
      }
      var fails := Fails(Other);
      if fails {
        return Failed, row;
      }
      PublishKeeps(world, spoiled, n, v);
      if sure {
        PublishedWaits(s, world, spoiled, n, v, b, ok, zip);
      }
      world := Move(world, n, Version(v));
      res := CrashOr(Done);
      if res == Crashed {
        return;
      }
      var made := Row(v, s.it.id, v.at, ok, Some(NewManifest(s, v.at, b, ok, zip)));
      if sure {
        RecordedIsOwn(s, world, spoiled, v, made);
      }
      if clean {
        CleanOnceRecorded(s, filled, n, v, made);
      }
      if ok && OneClaim(filled, s.job, spoiled) {
        PublishedOnce(s, filled, spoiled, n, v, b, zip, made);
      }
      assert Whole(world.dirs[Version(v)], made.manifest.value);
      RecordedWrote(s, world, made);
      res := InsertRow(made, Other);
    }

    /** The deferred removal of a failed backup's partial directory. */
    method Cleanup()
      requires Valid()
      modifies this
      ensures Valid() && Counted(broken, old(errors), errors)
      ensures world.rows == old(world).rows
      ensures OwnOk(s, old(world), spoiled) ==> OwnOk(s, world, spoiled)
    {
      ghost var before := world;
      var n := Partial(s.it.folder, s.job.id);
      var res := RemoveTree(n);
      assert forall v :: SameAt(before, world, Version(v)) && SameAt(before, world, Trash(v));
      if OwnOk(s, before, spoiled) {
        SameVersionsOwnOk(s, before, world, spoiled);
      }
    }

    /** The end of a job whose version i is recorded; pruned says what the prune gave up. */
    method Finish(i: RowId) returns (out: Outcome, ghost pruned: Option<PruneRun>)
      requires Valid() && i in Listed(s, world) && RowNames(world.rows[i], s.job)
      modifies this
      ensures Valid() && Counted(broken, old(errors), errors)
      ensures out == Success(i) || out == BadVersion || out == Interrupted
      ensures OwnOk(s, old(world), spoiled) ==> OwnOk(s, world, spoiled)
      ensures out == Success(i) ==> old(world).rows[i].ok
      ensures out == Interrupted ==> stops && old(world).rows[i].ok
      ensures out == BadVersion ==> world == old(world) && !old(world).rows[i].ok
      ensures out == Success(i) && OwnOk(s, old(world), spoiled) ==>
        i in world.rows && world.rows[i] == old(world).rows[i]
      ensures out == Success(i) && errors == old(errors) && Clean(s, old(world)) ==> Tidy(s, world)
      ensures pruned.Some? ==> pruned.value.before == old(world) && Anchored(s, week, spoiled, pruned.value, world)
      ensures out == Success(i) && errors == old(errors) ==> pruned.Some? && PrunedWell(s, week, pruned.value, world)
      ensures NoneLost(old(world), world, spoiled, pruned)
    {
      pruned := None;
      if !world.rows[i].ok {
        return BadVersion, None;
      }
      ghost var before, start := world, errors;
      ghost var cands, present, gone, toRestore, toPrune;
      var res;
      res, cands, present, gone, toRestore, toPrune := Prune();
      if OwnOk(s, before, spoiled) {
        PruneKeepsOwn(s, week, spoiled, before, world, cands, present, gone, toRestore, toPrune,
          res == Done && errors == start);
      }
      if res == Done && errors == start && Clean(s, before) {
        TidyAfterPrune(s, before, world, present, gone);
      }
      PruneLosesNone(s, week, spoiled, before, world, present, gone, toRestore, toPrune,
        res == Done && errors == start);
      pruned := Some(PruneRun(before, cands, present, gone));
      out := if res == Crashed then Interrupted else Success(i);
    }

    /** The first part of backup: recovery, and the version an earlier attempt of this job wrote. When it returns
        none, this job has none exactly if no failing access overlooked one that was there before. */
    method RecoverOwn() returns (res: Res, own: Option<RowId>)
      requires Valid()
      modifies this
      ensures res == Crashed ==> stops
      ensures Valid() && Counted(broken, old(errors), errors) && Recovering(s, old(world), world)
      ensures own.Some? ==> res == Done && resumed && IsOwn(s, world, own.value)
      ensures own.Some? ==> Look(world.rows[own.value].path) !in broken
      ensures res == Failed ==> errors > old(errors)
      ensures res == Done && errors == old(errors) && own.None? && resumed ==> forall i :: !IsOwn(s, world, i)
      ensures res == Done ==> RowsExact(old(world), world, broken)
      ensures res == Done && errors == old(errors) ==> Clean(s, world)
      ensures InOrder(s, old(world), spoiled, resumed) ==> OwnOk(s, world, spoiled)
      ensures own.Some? && InOrder(s, old(world), spoiled, resumed) && world.rows[own.value].ok ==>
        Returns(s, old(world), broken, world.rows[own.value].path)
      ensures res == Done && own.None? && InOrder(s, old(world), spoiled, resumed) ==>
        forall v :: !Returns(s, old(world), broken, v)
      ensures res == Done && own.None? && InOrder(s, old(world), spoiled, resumed) ==>
        (Quiet(s, world, spoiled) <==> forall v :: !Overlooks(s, old(world), broken, v))
      ensures res == Done && own.None? && InOrder(s, old(world), spoiled, resumed) ==>
        Harmless(broken) || errors == old(errors) ==> Ready(s, world, spoiled)
    {
      own := None;
      ghost var before := world;
      ghost var fine, missed := InOrder(s, before, spoiled, resumed), {};
      res, missed := RecoverAll();
      if fine {
        RecoverKeepsOwn(s, spoiled, before, world);
      }
      if res == Done {
        res, own := OwnVersion();
        if own.Some? && fine && world.rows[own.value].ok {
          OwnReturns(s, before, world, spoiled, broken, own.value);
        }
        if res == Done && own.None? && fine {
          forall v ensures !Returns(s, before, broken, v) {
            NoneReturns(s, before, world, spoiled, resumed, broken, missed, v);
          }
          QuietUnlessOverlooked(s, before, world, spoiled, resumed, broken, missed);
          NothingMissed(s, before, broken, missed);
          if missed == {} && (resumed ==> forall i :: !IsOwn(s, world, i)) {
            ReadyToWrite(s, before, world, spoiled, resumed, missed);
          }
        }
      }
    }

    /** backup: one attempt of the job. found: the state recovery left; wrote: the state in which it had just
        recorded an ok version. */
    method Attempt()
      returns (out: Outcome, ghost found: World, ghost pruned: Option<PruneRun>, ghost wrote: Option<World>)
      requires Valid() && s.it.folder.id == s.it.id
      modifies this
      ensures Valid() && Counted(broken, old(errors), errors)
      ensures Recovering(s, old(world), found)
      ensures errors == old(errors) && !stops ==> Clean(s, found) && RowsExact(old(world), found, broken)
      ensures errors == old(errors) && !stops ==> EndsAsItShould(s, resumed, offer, found, out, wrote, world)
      ensures out == Interrupted ==> stops
      ensures out.Unchanged? ==> offer.scheduled.Some? && IsCopy(s, world, offer.scheduled.value, out.row)
      ensures out.Success? && errors == old(errors) ==> pruned.Some? && PrunedWell(s, week, pruned.value, world)
      ensures out.Success? && errors == old(errors) && wrote.Some? ==> pruned.value.before == wrote.value
      ensures (Harmless(broken) || errors == old(errors)) && InOrder(s, old(world), spoiled, resumed) ==>
        OwnOk(s, world, spoiled) && (out.Success? ==> IsOwnOk(s, world, out.row))
      ensures out.Unchanged? ==>
        out.row in Listed(s, world) && world.rows[out.row].ok && WholeFiles(world, world.rows[out.row])
      ensures out.Success? && errors == old(errors) && InOrder(s, old(world), spoiled, resumed) ==> Tidy(s, world)
      ensures pruned.Some? ==>
        Anchored(s, week, spoiled, pruned.value, world) && RowsKept(old(world), pruned.value.before, spoiled)
      ensures NoneLost(old(world), world, spoiled, pruned)
      ensures out.Success? && !resumed ==> wrote.Some?
      ensures out.Success? && wrote.Some? ==> WroteNew(s, old(world), wrote.value, out.row)
      ensures out.Success? && wrote.Some? && InOrder(s, old(world), spoiled, resumed) ==>
        forall v :: !Returns(s, old(world), broken, v)
      ensures out.Success? && wrote.None? && InOrder(s, old(world), spoiled, resumed) ==>
        IsOwnOk(s, world, out.row) && Returns(s, old(world), broken, world.rows[out.row].path)
      ensures wrote.Some? && InOrder(s, old(world), spoiled, resumed) ==>
        (OneClaim(wrote.value, s.job, spoiled) <==> forall v :: !Overlooks(s, old(world), broken, v))
    {
      pruned, wrote := None, None;
      ghost var start := errors;
      ghost var fine := InOrder(s, world, spoiled, resumed);
      var res, own := RecoverOwn();
      found := world;
      if res != Done {
        out := Stop(res);
      } else if own.Some? {
        out, pruned := Finish(own.value);
      } else {
        ghost var calm := fine && (Harmless(broken) || errors == start);
        out, pruned, wrote := CopyBackup(calm, calm && errors == start);
      }
    }

    /** The second part of backup. calm: this job has no version, and recovery left none out; clean: recovery
        left nothing to do at all. */
    method CopyBackup(ghost calm: bool, ghost clean: bool)
      returns (out: Outcome, ghost pruned: Option<PruneRun>, ghost wrote: Option<World>)
      requires Valid() && s.it.folder.id == s.it.id
      requires (calm ==> Ready(s, world, spoiled)) && (clean ==> calm && Clean(s, world))
      modifies this
      ensures Valid() && Counted(broken, old(errors), errors)
      ensures errors == old(errors) && !stops ==> EndsAsItShould(s, false, offer, old(world), out, wrote, world)
      ensures out == Interrupted ==> stops
      ensures out.Unchanged? ==> offer.scheduled.Some? && IsCopy(s, world, offer.scheduled.value, out.row)
      ensures out.Success? && errors == old(errors) ==> pruned.Some? && PrunedWell(s, week, pruned.value, world)
      ensures out.Success? && errors == old(errors) && wrote.Some? ==> pruned.value.before == wrote.value
      ensures calm && (Harmless(broken) || errors == old(errors)) ==>
        OwnOk(s, world, spoiled) && (out.Success? ==> IsOwnOk(s, world, out.row))
      ensures clean && out.Success? && errors == old(errors) ==> Tidy(s, world)
      ensures out.Unchanged? ==>
        out.row in Listed(s, world) && world.rows[out.row].ok && WholeFiles(world, world.rows[out.row])
      ensures pruned.Some? ==>
        Anchored(s, week, spoiled, pruned.value, world) && RowsKept(old(world), pruned.value.before, spoiled)
      ensures NoneLost(old(world), world, spoiled, pruned)
      ensures out.Success? ==> wrote.Some? && WroteNew(s, old(world), wrote.value, out.row)
      ensures wrote.Some? && OneClaim(old(world), s.job, spoiled) ==>
        (OneClaim(wrote.value, s.job, spoiled) <==> Quiet(s, old(world), spoiled))
    {
      pruned, wrote := None, None;
      ghost var recovered, start := world, errors;
      var res, copy, b;
      ghost var lost;
      res, copy, b, lost := Choose();
      ghost var sure := calm && !lost;
      if calm {
        QuietIsOwnOk(s, world, spoiled);
      }
      if copy.Some? {
        return Unchanged(copy.value), None, None;
      }
      if res != Done {
        out := Stop(res);
        return;
      }
      if sure {
        ReadyStays(s, recovered, world, spoiled);
      }
      if clean && sure {
        CleanStays(s, recovered, world);
      }
      out, pruned, wrote := WriteAndFinish(b, sure, clean && sure);
    }

    /** An attempt that ends here. */
    method Stop(res: Res) returns (out: Outcome)
      requires Valid() && res != Done
      modifies this
      ensures Valid() && Counted(broken, old(errors), errors)
      ensures out == (if res == Crashed then Interrupted else Error) && world.rows == old(world).rows
      ensures OwnOk(s, old(world), spoiled) ==> OwnOk(s, world, spoiled)
    {
      if res == Failed {
        Cleanup();
      }
      out := if res == Crashed then Interrupted else Error;
    }

    /** choose: the backup to copy, unless an intact copy of it is there already; then it is fetched. */
    method Choose() returns (res: Res, copy: Option<RowId>, b: Backup, ghost lost: bool)
      requires Valid()
      modifies this
      ensures Valid() && Counted(broken, old(errors), errors)
      ensures world.dirs == old(world).dirs && world.now == old(world).now
      ensures SameClaims(s.job, old(world), world, spoiled)
      ensures !lost && res == Done ==> forall v :: Recorded(old(world), v) ==> Recorded(world, v)
      ensures lost ==> errors > old(errors) && !Harmless(broken)
      ensures RowsKept(old(world), world, spoiled)
      ensures res == Crashed ==> stops
      ensures copy.Some? ==> offer.scheduled.Some? && IsCopy(s, world, offer.scheduled.value, copy.value)
      ensures errors == old(errors) && copy.Some? ==> UpToDate(s, old(world), offer, copy.value)
      ensures errors == old(errors) && copy.None? && res != Crashed ==>
        forall i :: !UpToDate(s, old(world), offer, i)
      ensures errors == old(errors) && copy.None? && res != Crashed ==>
        (res == Done <==> Chosen(s, old(world), offer).Some? && offer.fetched)
      ensures errors == old(errors) && copy.None? && res == Done ==> Chosen(s, old(world), offer) == Some(b)
    {
      b, copy, res, lost := Backup(0, false), None, Done, false;
      ghost var before := world;
      var chosen := offer.made;
      if offer.scheduled.Some? {
        var bad;
        res, copy, bad, lost := AlreadyCopied(offer.scheduled.value);
        if res != Done || copy.Some? {
          return;
        }
        if !bad {
          chosen := offer.scheduled;
        }
      }
      if chosen.Some? {
        b := chosen.value;
      }
      res := CrashOr(if chosen.Some? && offer.fetched then Done else Failed);
    }

    /** The rest of backup. */
    method WriteAndFinish(b: Backup, ghost ready: bool, ghost clean: bool)
      returns (out: Outcome, ghost pruned: Option<PruneRun>, ghost wrote: Option<World>)
      requires Valid() && s.it.folder.id == s.it.id
      requires (ready ==> Ready(s, world, spoiled)) && (clean ==> Clean(s, world))
      modifies this
      ensures Valid() && Counted(broken, old(errors), errors) && !out.Unchanged?
      ensures errors == old(errors) && !stops ==> WritesChosen(s, offer, b, out, wrote, world)
      ensures out == Interrupted ==> stops
      ensures out.Success? && errors == old(errors) ==> pruned.Some? && PrunedWell(s, week, pruned.value, world)
      ensures out.Success? && errors == old(errors) && wrote.Some? ==> pruned.value.before == wrote.value
      ensures ready ==> OwnOk(s, world, spoiled) && (out.Success? ==> IsOwnOk(s, world, out.row))
      ensures out.Success? && errors == old(errors) && clean ==> Tidy(s, world)
      ensures pruned.Some? ==>
        Anchored(s, week, spoiled, pruned.value, world) && RowsKept(old(world), pruned.value.before, spoiled)
      ensures NoneLost(old(world), world, spoiled, pruned)
      ensures out.Success? ==> wrote.Some? && WroteNew(s, old(world), wrote.value, out.row)
      ensures wrote.Some? && OneClaim(old(world), s.job, spoiled) ==>
        (OneClaim(wrote.value, s.job, spoiled) <==> Quiet(s, old(world), spoiled))
    {
      pruned, wrote := None, None;
      var res, row;
      res, row := WriteVersion(b, offer.ok, offer.zip, ready, clean);
      if res != Done {
        out := Stop(res);
        return;
      }
      wrote := if offer.ok then Some(world) else None;
      out, pruned := Finish(row);
    }
  }
}
