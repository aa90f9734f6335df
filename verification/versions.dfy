/** The *arr backup versions of one destination: the directories there and the rows that record them
    (internal/arrbackup, internal/snapshots). The two cannot be changed together, so a crash can leave
    any prefix of the changes below; what they keep is proved for each change. */
module ArrVersions {
  import opened Wrappers

  type Time = int

  type JobId = int

  type RowId = nat

  type ZipName = int

  /** "<slug>-<integration id>". */
  datatype Folder = Folder(slug: int, id: int)

  /** "<folder>/<time of the version>". */
  datatype VersionPath = VersionPath(folder: Folder, at: Time)

  /** The directories of a folder: ".partial-job<id>", "<version>" and ".prune-<version>". */
  datatype DirName = Partial(folder: Folder, job: JobId) | Version(v: VersionPath) | Trash(v: VersionPath)

  /** A file as its size and sha256. */
  datatype Zip = Zip(size: nat, sha: int)

  datatype Backup = Backup(name: ZipName, scheduled: bool)

  datatype Job = Job(id: JobId, queuedAt: Time)

  /** zipName is None when it is not a plain backup name; job is None without an id or a queue time. */
  datatype Manifest = Manifest(
    integration: int, app: int, job: Option<Job>, createdAt: Option<Time>, backup: Backup, ok: bool,
    zipName: Option<ZipName>, zip: Zip)

  datatype ManifestFile = NoManifest | BadManifest | Good(m: Manifest)

  datatype Dir = Dir(manifest: ManifestFile, zips: map<ZipName, Zip>)

  /** manifest is None when the recorded text does not parse. */
  datatype Row = Row(path: VersionPath, integration: int, createdAt: Time, ok: bool, manifest: Option<Manifest>)

  /** now is later than everything dated so far. */
  datatype World = World(dirs: map<DirName, Dir>, rows: map<RowId, Row>, nextRow: RowId, now: Time)

  // ---- The single changes ----

  function Without(dirs: map<DirName, Dir>, n: DirName): map<DirName, Dir> {
    map k | k in dirs && k != n :: dirs[k]
  }

  function Drop(w: World, n: DirName): World {
    w.(dirs := Without(w.dirs, n))
  }

  function Put(w: World, n: DirName, d: Dir): World {
    w.(dirs := w.dirs[n := d])
  }

  function Move(w: World, from: DirName, to: DirName): World
    requires from in w.dirs
  {
    w.(dirs := Without(w.dirs, from)[to := w.dirs[from]])
  }

  function Unrecord(w: World, id: RowId): World {
    w.(rows := map k | k in w.rows && k != id :: w.rows[k])
  }

  function Record(w: World, row: Row): World {
    w.(rows := w.rows[w.nextRow := row], nextRow := w.nextRow + 1)
  }

  predicate Recorded(w: World, v: VersionPath) {
    exists i :: i in w.rows && w.rows[i].path == v
  }

  // ---- What every change keeps ----

  /** The directory holds the manifest and the zip it names. */
  predicate Whole(d: Dir, m: Manifest) {
    d.manifest == Good(m) && m.zipName.Some? && m.zipName.value in d.zips && d.zips[m.zipName.value] == m.zip
  }

  predicate WholeAt(w: World, n: DirName, m: Manifest) {
    n in w.dirs && Whole(w.dirs[n], m)
  }

  /** The recorded version is whole under its name or its trash name. */
  predicate Kept(w: World, row: Row) {
    && row.manifest.Some?
    && (WholeAt(w, Version(row.path), row.manifest.value) || WholeAt(w, Trash(row.path), row.manifest.value))
  }

  ghost predicate RowsDistinct(w: World) {
    && (forall i :: i in w.rows ==> i < w.nextRow)
    && (forall i, j :: i in w.rows && j in w.rows && w.rows[i].path == w.rows[j].path ==> i == j)
  }

  ghost predicate NoTwins(w: World) {
    forall v :: !(Version(v) in w.dirs && Trash(v) in w.dirs)
  }

  predicate DirPast(n: DirName, d: Dir, now: Time) {
    && (!n.Partial? ==> n.v.at < now)
    && (d.manifest.Good? && d.manifest.m.createdAt.Some? ==> d.manifest.m.createdAt.value < now)
  }

  /** Everything is dated before now. */
  ghost predicate Past(w: World, spoiled: set<VersionPath>) {
    && (forall i :: i in w.rows ==> w.rows[i].path.at < w.now && w.rows[i].createdAt < w.now)
    && (forall n :: n in w.dirs ==> DirPast(n, w.dirs[n], w.now))
    && (forall v :: v in spoiled ==> v.at < w.now)
  }

  /** spoiled: the versions whose files something else has changed. Every other version recorded ok is
      whole. */
  ghost predicate OksKept(w: World, spoiled: set<VersionPath>) {
    forall i :: i in w.rows && w.rows[i].ok && w.rows[i].path !in spoiled ==> Kept(w, w.rows[i])
  }

  predicate Names(m: Manifest, job: Job) {
    m.job == Some(job)
  }

  predicate RowNames(row: Row, job: Job) {
    row.manifest.Some? && Names(row.manifest.value, job)
  }

  predicate DirNames(d: Dir, job: Job) {
    d.manifest.Good? && Names(d.manifest.m, job)
  }

  ghost predicate Inv(w: World, spoiled: set<VersionPath>) {
    RowsDistinct(w) && NoTwins(w) && Past(w, spoiled) && OksKept(w, spoiled)
  }

  /** What a removal may delete: nothing a row stands for. */
  predicate Loose(w: World, n: DirName) {
    n.Partial? || (n.Trash? && !Recorded(w, n.v))
  }

  predicate PartOf(less: Dir, d: Dir) {
    && (less.manifest == d.manifest || less.manifest == NoManifest)
    && (forall z :: z in less.zips ==> z in d.zips && less.zips[z] == d.zips[z])
  }

  lemma DropKeeps(w: World, spoiled: set<VersionPath>, n: DirName)
    requires Inv(w, spoiled) && Loose(w, n)
    ensures Inv(Drop(w, n), spoiled)
  {
    var w' := Drop(w, n);
    forall i | i in w.rows && Kept(w, w.rows[i]) ensures Kept(w', w.rows[i]) {
      assert Recorded(w, w.rows[i].path);
    }
  }

  lemma ShrinkKeeps(w: World, spoiled: set<VersionPath>, n: DirName, d: Dir)
    requires Inv(w, spoiled) && Loose(w, n) && n in w.dirs && PartOf(d, w.dirs[n])
    ensures Inv(Put(w, n, d), spoiled)
  {
    var w' := Put(w, n, d);
    forall i | i in w.rows && Kept(w, w.rows[i]) ensures Kept(w', w.rows[i]) {
      assert Recorded(w, w.rows[i].path);
    }
  }

  /** A prune's first rename: the version leaves its name. */
  lemma TrashKeeps(w: World, spoiled: set<VersionPath>, v: VersionPath)
    requires Inv(w, spoiled) && Version(v) in w.dirs
    ensures Inv(Move(w, Version(v), Trash(v)), spoiled)
  {
    var w' := Move(w, Version(v), Trash(v));
    forall i | i in w.rows && Kept(w, w.rows[i]) ensures Kept(w', w.rows[i]) {
    }
  }

  /** A kept version gets its name back. */
  lemma RestoreKeeps(w: World, spoiled: set<VersionPath>, v: VersionPath)
    requires Inv(w, spoiled) && Trash(v) in w.dirs && Recorded(w, v)
    ensures Inv(Move(w, Trash(v), Version(v)), spoiled)
  {
    var w' := Move(w, Trash(v), Version(v));
    forall i | i in w.rows && Kept(w, w.rows[i]) ensures Kept(w', w.rows[i]) {
    }
  }

  /** A row goes. */
  lemma UnrecordKeeps(w: World, spoiled: set<VersionPath>, id: RowId)
    requires Inv(w, spoiled)
    ensures Inv(Unrecord(w, id), spoiled)
  {
    var w' := Unrecord(w, id);
    forall i | i in w'.rows && Kept(w, w.rows[i]) ensures Kept(w', w'.rows[i]) {
    }
  }

  lemma RecordedStays(w: World, row: Row, v: VersionPath)
    requires RowsDistinct(w) && Recorded(w, v)
    ensures Recorded(Record(w, row), v)
  {
    var i :| i in w.rows && w.rows[i].path == v;
    assert i in Record(w, row).rows && Record(w, row).rows[i].path == v;
  }

  /** A row comes, for a directory that has none. */
  lemma RecordKeeps(w: World, spoiled: set<VersionPath>, row: Row)
    requires Inv(w, spoiled) && !Recorded(w, row.path)
    requires row.path.at < w.now && row.createdAt < w.now
    requires row.ok && row.path !in spoiled ==> Kept(w, row)
    ensures Inv(Record(w, row), spoiled)
  {
    var w' := Record(w, row);
    forall i | i in w.rows ensures Recorded(w, w.rows[i].path) {
    }
  }

  /** Writing into the partial directory. */
  lemma PutPartialKeeps(w: World, spoiled: set<VersionPath>, n: DirName, d: Dir)
    requires Inv(w, spoiled) && n.Partial? && DirPast(n, d, w.now)
    ensures Inv(Put(w, n, d), spoiled)
  {
    var w' := Put(w, n, d);
    forall i | i in w.rows && Kept(w, w.rows[i]) ensures Kept(w', w.rows[i]) {
    }
  }

  lemma TickKeeps(w: World, spoiled: set<VersionPath>)
    requires Inv(w, spoiled)
    ensures Inv(w.(now := w.now + 1), spoiled)
  {
    var w' := w.(now := w.now + 1);
    forall i | i in w.rows && Kept(w, w.rows[i]) ensures Kept(w', w.rows[i]) {
    }
  }

  /** The partial directory gets a version's name that nothing has or had. */
  lemma PublishKeeps(w: World, spoiled: set<VersionPath>, n: DirName, v: VersionPath)
    requires Inv(w, spoiled) && n.Partial? && n in w.dirs && v.at < w.now
    requires Version(v) !in w.dirs && Trash(v) !in w.dirs && !Recorded(w, v)
    ensures Inv(Move(w, n, Version(v)), spoiled)
  {
    var w' := Move(w, n, Version(v));
    forall i | i in w.rows && Kept(w, w.rows[i]) ensures Kept(w', w.rows[i]) {
    }
  }

  /** Something else changes the files of a version, wherever they are, or takes them away. */
  lemma SpoilKeeps(w: World, spoiled: set<VersionPath>, n: DirName, d: Option<Dir>)
    requires Inv(w, spoiled) && !n.Partial? && n in w.dirs && (d.Some? ==> DirPast(n, d.value, w.now))
    ensures Inv(if d.Some? then Put(w, n, d.value) else Drop(w, n), spoiled + {n.v})
  {
    var w' := if d.Some? then Put(w, n, d.value) else Drop(w, n);
    forall i | i in w.rows && Kept(w, w.rows[i]) && w.rows[i].path != n.v ensures Kept(w', w.rows[i]) {
    }
  }
}
