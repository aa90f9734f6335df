/** The recorded identity of a source's root: what a scan checks and records (internal/catalog/scan.go,
    fsinfo_linux.go) and what an edit of the source keeps, checks or clears (internal/catalog/source.go). */
module RootIdentity {
  import opened Wrappers

  /** The root as stat and statfs show it. */
  datatype Ident = Ident(fsType: string, dev: nat, ino: nat)

  /** The recorded columns, each possibly NULL. */
  datatype Recorded = Recorded(fsType: Option<string>, dev: Option<nat>, ino: Option<nat>)

  const CLEARED := Recorded(None, None, None)

  const ANON_DEV_FS: set<string> := {"fuse", "nfs", "cifs", "smb2", "smb", "btrfs", "zfs", "overlay"}

  const RUN_TIME_INO_FS: set<string> := {"fuse", "cifs", "smb2", "smb"}

  /** The major number of a 64-bit Linux device number: bits 8 to 19 and 44 to 63. */
  function Major(dev: nat): nat {
    (dev / 0x100) % 0x1000 + (dev / 0x1000_0000_0000) * 0x1000
  }

  predicate AnonymousDev(i: Ident) {
    Major(i.dev) == 0 || i.fsType in ANON_DEV_FS
  }

  predicate StableIno(i: Ident) {
    i.fsType !in RUN_TIME_INO_FS
  }

  function Record(i: Ident): Recorded {
    Recorded(Some(i.fsType), Some(i.dev), Some(i.ino))
  }

  // ---- The settings of a source and what edits them ----

  datatype Settings = Settings(path: string, folder: string, other: int)

  /** seen: the roots of the scans accepted since the identity was last cleared, oldest first. */
  datatype Source = Source(settings: Settings, rec: Recorded, ghost seen: seq<Ident>)

  /** What an edit finds: whether the source is locked or has jobs, whether destinations hold backups,
      whether the present path exists, the new path's identity, the present path's device and inode, its
      filesystem type, and whether each path holds the catalogued files; None where that fails. */
  datatype Found = Found(
    busy: bool, backups: bool, there: bool, next: Option<Ident>, now: Option<(nat, nat)>, nowFs: Option<string>,
    nowHolds: Option<bool>, nextHolds: Option<bool>)

  /** checkSameRoot: whether a backed-up source's path may change. */
  function SameRoot(rec: Recorded, f: Found): bool {
    if f.next.None? then false
    else
      var n := f.next.value;
      if rec.dev.None? || rec.ino.None? then f.now == Some((n.dev, n.ino))
      else if n.dev == rec.dev.value && n.ino == rec.ino.value then true
      else if n.dev == rec.dev.value || !AnonymousDev(n) || rec.fsType != Some(n.fsType) || StableIno(n) then false
      else if f.now.Some? && (f.now == Some((rec.dev.value, rec.ino.value)) || f.nowHolds != Some(false)) then false
      else if f.now.Some? && (f.nowFs.None? || f.nowFs == rec.fsType) then false
      else f.nextHolds == Some(true)
  }

  /** Update: None refuses. */
  function Edit(s: Source, v: Settings, f: Found): Option<Source> {
    var pathChanged, folderChanged := v.path != s.settings.path, v.folder != s.settings.folder;
    if pathChanged || folderChanged then
      if f.busy || (f.backups && folderChanged) || (f.backups && pathChanged && !SameRoot(s.rec, f)) then None
      else Some(if pathChanged && !f.backups then Source(v, CLEARED, []) else s.(settings := v))
    else if v == s.settings && f.there then Some(Source(v, CLEARED, []))
    else Some(s.(settings := v))
  }

  /** openRoot accepts the root. */
  function Accepts(rec: Recorded, i: Ident): bool {
    if rec.fsType.Some? && rec.fsType.value != i.fsType then false
    else
      var devChanged := rec.dev.Some? && rec.dev.value != i.dev;
      if devChanged && !AnonymousDev(i) then false
      else !(AnonymousDev(i) && StableIno(i) && rec.ino.Some? && rec.ino.value != i.ino)
  }

  /** A scan of root i that commits when it is accepted. */
  function Scanned(s: Source, i: Ident): Source {
    if Accepts(s.rec, i) then Source(s.settings, Record(i), s.seen + [i]) else s
  }

  datatype Event = Scan(root: Ident) | Update(v: Settings, found: Found)

  function After(s: Source, e: Event): Source {
    match e
    case Scan(i) => Scanned(s, i)
    case Update(v, f) => var r := Edit(s, v, f); if r.Some? then r.value else s
  }

  function AfterAll(s: Source, events: seq<Event>): Source {
    if events == [] then s else After(AfterAll(s, events[..|events| - 1]), events[|events| - 1])
  }

  // ---- What every run keeps ----

  /** The record is the last accepted root, and all of them are one filesystem's; on one with mount-time
      devices and stable inodes they are one directory, and on a fixed device they are that device's. */
  ghost predicate Steady(s: Source) {
    && (s.seen == [] ==> s.rec == CLEARED)
    && (s.seen != [] ==> s.rec == Record(s.seen[|s.seen| - 1]))
    && (forall k :: 0 <= k < |s.seen| ==> SameAsFirst(s.seen[0], s.seen[k]))
    && (forall k :: 0 <= k < |s.seen| && !AnonymousDev(s.seen[k]) ==>
      !AnonymousDev(s.seen[0]) && s.seen[k].dev == s.seen[0].dev)
    && (forall k :: 0 <= k < |s.seen| && AnonymousDev(s.seen[k]) && k + 1 < |s.seen| ==> AnonymousDev(s.seen[k + 1]))
  }

  predicate SameAsFirst(first: Ident, i: Ident) {
    && i.fsType == first.fsType
    && (i.fsType in ANON_DEV_FS && i.fsType !in RUN_TIME_INO_FS ==> i.ino == first.ino)
  }

  lemma ScanSteady(s: Source, i: Ident)
    requires Steady(s)
    ensures Steady(Scanned(s, i))
  {
    if Accepts(s.rec, i) && s.seen != [] {
      var last := s.seen[|s.seen| - 1];
      assert SameAsFirst(s.seen[0], last);
      assert SameAsFirst(s.seen[0], i);
    }
  }

  lemma {:induction false} RunSteady(s: Source, events: seq<Event>)
    requires Steady(s)
    ensures Steady(AfterAll(s, events))
  {
    if events != [] {
      var mid, e := AfterAll(s, events[..|events| - 1]), events[|events| - 1];
      RunSteady(s, events[..|events| - 1]);
      if e.Scan? {
        ScanSteady(mid, e.root);
      }
    }
  }

  /** From a new source on, whatever scans and edits follow: every scan accepted since the identity was last
      cleared saw the first one's filesystem type; on nfs, btrfs, zfs and overlay its root inode too; and
      on a device with a fixed number, its device. */
  lemma FirstIdentityStays(settings: Settings, events: seq<Event>, i: Ident)
    requires var s := AfterAll(Source(settings, CLEARED, []), events); s.seen != [] && Accepts(s.rec, i)
    ensures var s := AfterAll(Source(settings, CLEARED, []), events);
      && i.fsType == s.seen[0].fsType
      && (i.fsType in {"nfs", "btrfs", "zfs", "overlay"} ==> i.ino == s.seen[0].ino)
      && (!AnonymousDev(i) ==> i.dev == s.seen[0].dev)
  {
    var s := AfterAll(Source(settings, CLEARED, []), events);
    RunSteady(Source(settings, CLEARED, []), events);
    ScanSteady(s, i);
    var t := Scanned(s, i);
    assert t.seen[|t.seen| - 1] == i && t.seen[0] == s.seen[0];
    assert SameAsFirst(t.seen[0], t.seen[|t.seen| - 1]);
  }

  /** The update re-saves the settings of a source whose path exists, or moves a source without backups. */
  predicate Clears(s: Source, e: Event) {
    && e.Update? && Edit(s, e.v, e.found).Some?
    && ((e.v == s.settings && e.found.there) || (e.v.path != s.settings.path && !e.found.backups))
  }

  /** A clearing update came, or the identity was missing before, and no scan since. */
  predicate ClearedSince(s: Source, events: seq<Event>) {
    if events == [] then s.rec == CLEARED
    else
      var before, e := events[..|events| - 1], events[|events| - 1];
      !e.Scan? && (ClearedSince(s, before) || Clears(AfterAll(s, before), e))
  }

  /** Over any scans and edits, accepted or refused: a source has no recorded identity if and only if a clearing
      update came after its last scan. In particular no scan, refused ones included, and no other edit ever
      loses it. */
  lemma {:induction false} UnrecordedIff(s: Source, events: seq<Event>)
    ensures AfterAll(s, events).rec == CLEARED <==> ClearedSince(s, events)
  {
    if events != [] {
      var before, e := events[..|events| - 1], events[|events| - 1];
      UnrecordedIff(s, before);
      if e.Update? && Edit(AfterAll(s, before), e.v, e.found).Some? && AfterAll(s, before).rec != CLEARED {
        ClearedExactlyWhen(AfterAll(s, before), e.v, e.found);
      }
    }
  }

  /** The identity is cleared exactly by a plain re-save of a path that exists and by a path change without
      backups; a backed-up source's accepted path change keeps it. */
  lemma ClearedExactlyWhen(s: Source, v: Settings, f: Found)
    requires Edit(s, v, f).Some? && s.rec != CLEARED
    ensures Edit(s, v, f).value.rec == CLEARED <==>
      (v == s.settings && f.there) || (v.path != s.settings.path && !f.backups)
    ensures v.path != s.settings.path && f.backups ==> Edit(s, v, f).value.rec == s.rec && SameRoot(s.rec, f)
  {
  }

  /** A path change of a backed-up source on a filesystem with stable inodes leads to the recorded device
      and inode and nowhere else. On one without, it may lead to another anonymous device of the same type,
      but only to one that holds the catalogued files while the present path does not. */
  lemma PathChangeKeepsRoot(s: Source, v: Settings, f: Found)
    requires Edit(s, v, f).Some? && v.path != s.settings.path && f.backups
    requires s.rec.fsType.Some? && s.rec.dev.Some? && s.rec.ino.Some?
    ensures f.next.Some?
    ensures StableIno(f.next.value) ==> f.next.value.dev == s.rec.dev.value && f.next.value.ino == s.rec.ino.value
    ensures (f.next.value.dev, f.next.value.ino) == (s.rec.dev.value, s.rec.ino.value)
      || (f.next.value.fsType == s.rec.fsType.value && AnonymousDev(f.next.value) && f.nextHolds == Some(true)
          && (f.now.None? || (f.nowHolds == Some(false) && f.nowFs.Some? && f.nowFs != s.rec.fsType)))
  {
  }

  /** The device number is not stable across mounts: its major number (bits 8 to 19 and 44 to 63) is 0, or the
      filesystem is one of those named. */
  predicate MountTimeDev(i: Ident) {
    || i.fsType in {"fuse", "nfs", "cifs", "smb2", "smb", "btrfs", "zfs", "overlay"}
    || ((i.dev / 0x100) % 0x1000 == 0 && i.dev < 0x1000_0000_0000)
  }

  predicate RunTimeIno(i: Ident) {
    i.fsType in {"fuse", "cifs", "smb2", "smb"}
  }

  /** In every run a scan of root i is accepted if and only if none was since the identity was last cleared, or i
      is of the last one's filesystem type, on its device unless device numbers change with mounts, and there with
      its inode unless those are made at run time. */
  lemma AcceptedIff(settings: Settings, events: seq<Event>, i: Ident)
    ensures var s := AfterAll(Source(settings, CLEARED, []), events);
      Accepts(s.rec, i) <==>
      s.seen == [] ||
      (var last := s.seen[|s.seen| - 1];
       && i.fsType == last.fsType && (i.dev == last.dev || MountTimeDev(i))
       && (i.ino == last.ino || !MountTimeDev(i) || RunTimeIno(i)))
  {
    RunSteady(Source(settings, CLEARED, []), events);
  }

  /** The directory f.next may take the place of the recorded one: it is that directory; or, on a filesystem with
      run-time inode numbers, another device of the same type that holds the catalogued files, when the present
      path neither is the recorded root, nor holds them, nor is on that type, each known for certain. */
  predicate TakesPlace(rec: Recorded, f: Found)
    requires f.next.Some? && rec.dev.Some? && rec.ino.Some?
  {
    var n := f.next.value;
    || (n.dev == rec.dev.value && n.ino == rec.ino.value)
    || (&& n.dev != rec.dev.value && RunTimeIno(n) && rec.fsType == Some(n.fsType) && f.nextHolds == Some(true)
        && (f.now.None? ||
            (f.now.value != (rec.dev.value, rec.ino.value) && f.nowHolds == Some(false) &&
             f.nowFs.Some? && f.nowFs != rec.fsType)))
  }

  /** The new path shows the source: the recorded directory or what may take its place; with device or inode not
      recorded, the directory at the present path. */
  predicate ShowsSource(rec: Recorded, f: Found) {
    && f.next.Some?
    && if rec.dev.Some? && rec.ino.Some? then TakesPlace(rec, f)
       else f.now == Some((f.next.value.dev, f.next.value.ino))
  }

  /** An edit is accepted if and only if it changes neither path nor folder, or the source is idle and, when it has
      backups, its folder stays and its new path shows the source. */
  lemma EditAcceptedIff(s: Source, v: Settings, f: Found)
    ensures Edit(s, v, f).Some? <==>
      || (v.path == s.settings.path && v.folder == s.settings.folder)
      || (&& !f.busy
          && (f.backups ==> v.folder == s.settings.folder && ShowsSource(s.rec, f)))
    ensures Edit(s, v, f).Some? ==> Edit(s, v, f).value.settings == v
  {
  }

  // ---- The code: one row of the sources table ----

  class SourceRow {
    var settings: Settings
    var rec: Recorded
    ghost var seen: seq<Ident>

    ghost function Now(): Source
      reads this
    {
      Source(settings, rec, seen)
    }

    constructor (settings: Settings)
      ensures Now() == Source(settings, CLEARED, []) && Steady(Now())
    {
      this.settings, rec, seen := settings, CLEARED, [];
    }

    /** openRoot's checks; refused scans change nothing. */
    method OpenRoot(i: Ident) returns (ok: bool)
      ensures ok == Accepts(rec, i)
    {
      if rec.fsType.Some? && rec.fsType.value != i.fsType {
        return false;
      }
      var devChanged := rec.dev.Some? && rec.dev.value != i.dev;
      if devChanged && !AnonymousDev(i) {
        return false;
      }
      if AnonymousDev(i) && StableIno(i) && rec.ino.Some? && rec.ino.value != i.ino {
        return false;
      }
      return true;
    }

    /** A whole scan; stopped: it ends, or the process does, before its last transaction. */
    method ScanRoot(i: Ident, stopped: bool) returns (ok: bool)
      requires Steady(Now())
      modifies this
      ensures Steady(Now()) && ok == (!stopped && Accepts(old(rec), i))
      ensures Now() == if stopped then old(Now()) else Scanned(old(Now()), i)
    {
      ok := OpenRoot(i);
      if stopped {
        ok := false;
      }
      if ok {
        ScanSteady(Now(), i);
        rec := Recorded(Some(i.fsType), Some(i.dev), Some(i.ino));
        seen := seen + [i];
      }
    }

    /** Update. */
    method Save(v: Settings, f: Found) returns (ok: bool)
      requires Steady(Now())
      modifies this
      ensures Steady(Now()) && ok == Edit(old(Now()), v, f).Some?
      ensures Now() == if ok then Edit(old(Now()), v, f).value else old(Now())
    {
      var pathChanged, folderChanged := v.path != settings.path, v.folder != settings.folder;
      var clearIdentity := false;
      if pathChanged || folderChanged {
        if f.busy || (f.backups && folderChanged) {
          return false;
        }
        if f.backups && pathChanged && !SameRoot(rec, f) {
          return false;
        }
        clearIdentity := pathChanged && !f.backups;
      } else if v == settings && f.there {
        clearIdentity := true;
      }
      settings := v;
      if clearIdentity {
        rec, seen := CLEARED, [];
      }
      return true;
    }
  }
}
