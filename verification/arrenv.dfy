/** What else happens at a destination while an *arr backup job is stopped: jobs of other integrations,
    and changes made by nobody in the program. */
module ArrEnvironment {
  import opened Wrappers
  import opened ArrVersions
  import opened ArrRules

  /** Change: something changes a version's files, or takes them away. Others: a job of another integration
      writes or removes one of its directories, inserts or deletes one of its rows. */
  datatype Event =
    | Change(n: DirName, d: Option<Dir>)
    | OthersDir(n: DirName, d: Option<Dir>)
    | OthersInsert(row: Row)
    | OthersDelete(id: RowId)
    | Pass

  predicate Enabled(s: Setting, w: World, e: Event) {
    match e
    case Change(n, d) => !n.Partial? && n in w.dirs && (d.Some? ==> DirPast(n, d.value, w.now))
    case OthersDir(n, d) => !Mine(s, n) && if d.Some? then DirPast(n, d.value, w.now) && NoTwin(w, n) else n in w.dirs
    case OthersInsert(row) =>
      && row.path.folder.id != s.it.id && row.integration != s.it.id
      && !Recorded(w, row.path) && row.path.at < w.now && row.createdAt < w.now
    case OthersDelete(id) => id in w.rows && w.rows[id].path.folder.id != s.it.id && w.rows[id].integration != s.it.id
    case Pass => true
  }

  predicate NoTwin(w: World, n: DirName) {
    match n
    case Partial(_, _) => true
    case Version(v) => Trash(v) !in w.dirs
    case Trash(v) => Version(v) !in w.dirs
  }

  function SetDir(w: World, n: DirName, d: Option<Dir>): World {
    if d.Some? then Put(w, n, d.value) else Drop(w, n)
  }

  function Do(w: World, e: Event): World {
    match e
    case Change(n, d) => SetDir(w, n, d)
    case OthersDir(n, d) => SetDir(w, n, d)
    case OthersInsert(row) => Record(w, row)
    case OthersDelete(id) => Unrecord(w, id)
    case Pass => w.(now := w.now + 1)
  }

  /** The versions an event is about: this job promises nothing about their files any more. */
  function Touched(e: Event): set<VersionPath> {
    match e
    case Change(n, _) => if n.Partial? then {} else {n.v}
    case OthersDir(n, _) => if n.Partial? then {} else {n.v}
    case OthersInsert(row) => {row.path}
    case OthersDelete(_) => {}
    case Pass => {}
  }

  /** The directory n and what is recorded for it have nothing to do with the job, before or after. */
  predicate NotOf(w: World, n: DirName, d: Option<Dir>, job: Job) {
    && (n in w.dirs ==> !DirNames(w.dirs[n], job))
    && (d.Some? ==> !DirNames(d.value, job))
    && (!n.Partial? ==> forall i :: i in w.rows && w.rows[i].path == n.v ==> !RowNames(w.rows[i], job))
  }

  /** The event is not about what this job wrote, nor about a version without a row in this integration's
      folders, which recovery might record. */
  predicate Aside(s: Setting, w: World, e: Event) {
    match e
    case Change(n, d) => NotOf(w, n, d, s.job) && (Mine(s, n) && !n.Partial? ==> Recorded(w, n.v))
    case OthersDir(n, d) => NotOf(w, n, d, s.job)
    case OthersInsert(row) => !RowNames(row, s.job) && PathNotOf(w, row.path, s.job)
    case OthersDelete(id) => id in w.rows ==> !RowNames(w.rows[id], s.job) && PathNotOf(w, w.rows[id].path, s.job)
    case Pass => true
  }

  predicate PathNotOf(w: World, v: VersionPath, job: Job) {
    && (Version(v) in w.dirs ==> !DirNames(w.dirs[Version(v)], job))
    && (Trash(v) in w.dirs ==> !DirNames(w.dirs[Trash(v)], job))
  }

  lemma SetDirKeeps(w: World, spoiled: set<VersionPath>, n: DirName, d: Option<Dir>)
    requires Inv(w, spoiled) && (d.Some? ==> DirPast(n, d.value, w.now) && NoTwin(w, n))
    requires d.None? ==> n in w.dirs
    ensures Inv(SetDir(w, n, d), if n.Partial? then spoiled else spoiled + {n.v})
  {
    if n.Partial? {
      if d.Some? {
        PutPartialKeeps(w, spoiled, n, d.value);
      } else {
        DropKeeps(w, spoiled, n);
      }
    } else if n in w.dirs {
      SpoilKeeps(w, spoiled, n, d);
    } else {
      var w' := Put(w, n, d.value);
      forall i | i in w.rows && Kept(w, w.rows[i]) && w.rows[i].path != n.v ensures Kept(w', w.rows[i]) {
      }
    }
  }

  lemma WiderSpoiled(w: World, spoiled: set<VersionPath>, more: set<VersionPath>)
    requires Inv(w, spoiled) && spoiled <= more && forall v :: v in more ==> v.at < w.now
    ensures Inv(w, more)
  {
  }

  /** Whatever happens, the invariant holds about the versions nothing else changed. */
  lemma EventKeeps(s: Setting, w: World, spoiled: set<VersionPath>, e: Event)
    requires Inv(w, spoiled) && Enabled(s, w, e)
    ensures Inv(Do(w, e), spoiled + Touched(e))
  {
    match e
    case Change(n, d) =>
      assert NoTwin(w, n);
      SetDirKeeps(w, spoiled, n, d);
    case OthersDir(n, d) =>
      SetDirKeeps(w, spoiled, n, d);
      assert n.Partial? ==> spoiled + {} == spoiled;
    case OthersInsert(row) =>
      WiderSpoiled(w, spoiled, spoiled + {row.path});
      RecordKeeps(w, spoiled + {row.path}, row);
    case OthersDelete(id) =>
      UnrecordKeeps(w, spoiled, id);
      assert spoiled + {} == spoiled;
    case Pass =>
      TickKeeps(w, spoiled);
      assert spoiled + {} == spoiled;
  }

  // ---- What this job wrote stays its own ----

  /** A change that leaves what job wrote alone: no new claim, and the rest of what OwnOk says. */
  ghost predicate LeavesOwn(s: Setting, w: World, w': World, spoiled: set<VersionPath>) {
    && (forall v :: Claim(w', s.job, v) ==> Claim(w, s.job, v))
    && (forall v :: Waits(s, w', v) ==> Waits(s, w, v) && SameAt(w, w', Version(v)))
    && Listed(s, w') == Listed(s, w)
    && (forall i :: i in Listed(s, w) ==> w'.rows[i] == w.rows[i])
    && (forall i :: i in w'.rows && RowNames(w'.rows[i], s.job) ==>
        i in w.rows && w.rows[i] == w'.rows[i] && w'.rows[i].path !in spoiled && SameAt(w, w', Version(w.rows[i].path)))
    && (forall n :: n in w'.dirs && !n.Partial? && DirNames(w'.dirs[n], s.job) ==> n.v !in spoiled)
    && (NothingElse(s, w) ==> NothingElse(s, w'))
  }

  lemma LeftOwnOk(s: Setting, w: World, w': World, was: set<VersionPath>, spoiled: set<VersionPath>)
    requires OwnOk(s, w, was) && LeavesOwn(s, w, w', spoiled)
    ensures OwnOk(s, w', spoiled)
    ensures Quiet(s, w, was) ==> Quiet(s, w', spoiled)
  {
    forall i | i in w'.rows && w'.rows[i].ok && RowNames(w'.rows[i], s.job) ensures OwnRowOk(s, w', i) {
      assert OwnRowOk(s, w, i);
    }
    forall v | Waits(s, w', v) ensures WaitingOk(s, w', v) {
      assert WaitingOk(s, w, v);
    }
  }

  lemma DirLeavesOwn(s: Setting, w: World, spoiled: set<VersionPath>, n: DirName, d: Option<Dir>)
    requires Inv(w, spoiled) && OneClaim(w, s.job, spoiled) && NotOf(w, n, d, s.job)
    requires d.Some? ==> NoTwin(w, n)
    requires d.None? ==> n in w.dirs
    requires Mine(s, n) && !n.Partial? ==> Recorded(w, n.v)
    ensures LeavesOwn(s, w, SetDir(w, n, d), if n.Partial? then spoiled else spoiled + {n.v})
  {
    var w' := SetDir(w, n, d);
    forall v ensures (Recorded(w', v) <==> Recorded(w, v)) && (OkRowOf(w', s.job, v) <==> OkRowOf(w, s.job, v)) {
    }
    forall v | Waits(s, w', v) ensures Waits(s, w, v) && SameAt(w, w', Version(v)) {
      assert Version(v) != n;
    }
    forall v | Claim(w', s.job, v) ensures Claim(w, s.job, v) {
      assert Waits(s, w', v) ==> Waits(s, w, v);
    }
    forall k | k in w'.dirs && !k.Partial? && DirNames(w'.dirs[k], s.job)
      ensures k.v !in if n.Partial? then spoiled else spoiled + {n.v}
    {
      assert k != n && k in w.dirs && w'.dirs[k] == w.dirs[k];
    }
  }

  /** A row of another job leaves the rows of this integration and of this job as they were. */
  lemma InsertLeavesRows(s: Setting, w: World, row: Row)
    requires RowsDistinct(w) && Enabled(s, w, OthersInsert(row)) && Aside(s, w, OthersInsert(row))
    ensures Listed(s, Record(w, row)) == Listed(s, w)
    ensures forall i :: i in w.rows ==> Record(w, row).rows[i] == w.rows[i] && w.rows[i].path != row.path
    ensures forall i :: i in Record(w, row).rows && RowNames(Record(w, row).rows[i], s.job) ==> i in w.rows
  {
    forall i | i in w.rows ensures Recorded(w, w.rows[i].path) {
    }
  }

  /** ...and gives this job no claim. */
  lemma InsertAddsNoClaim(s: Setting, w: World, row: Row)
    requires RowsDistinct(w) && Enabled(s, w, OthersInsert(row)) && Aside(s, w, OthersInsert(row))
    ensures forall v :: Waits(s, Record(w, row), v) ==> Waits(s, w, v)
    ensures forall v :: Claim(Record(w, row), s.job, v) ==> Claim(w, s.job, v)
  {
    var w' := Record(w, row);
    forall v | Recorded(w, v) ensures Recorded(w', v) {
      RecordedStays(w, row, v);
    }
    forall v | OkRowOf(w', s.job, v) ensures OkRowOf(w, s.job, v) {
      var i :| i in w'.rows && w'.rows[i].ok && w'.rows[i].path == v && RowNames(w'.rows[i], s.job);
      assert i in w.rows;
    }
  }

  lemma InsertLeavesElse(s: Setting, w: World, row: Row)
    requires RowsDistinct(w) && NothingElse(s, w)
    ensures NothingElse(s, Record(w, row))
  {
    var w' := Record(w, row);
    forall v | Recorded(w, v) ensures Recorded(w', v) {
      RecordedStays(w, row, v);
    }
  }

  lemma InsertLeavesOwn(s: Setting, w: World, spoiled: set<VersionPath>, row: Row)
    requires RowsDistinct(w) && OneClaim(w, s.job, spoiled)
    requires Enabled(s, w, OthersInsert(row)) && Aside(s, w, OthersInsert(row))
    ensures LeavesOwn(s, w, Record(w, row), spoiled + {row.path})
  {
    InsertLeavesRows(s, w, row);
    InsertAddsNoClaim(s, w, row);
    if NothingElse(s, w) {
      InsertLeavesElse(s, w, row);
    }
  }

  lemma DeleteLeavesOwn(s: Setting, w: World, spoiled: set<VersionPath>, id: RowId)
    requires Inv(w, spoiled) && OneClaim(w, s.job, spoiled) && Enabled(s, w, OthersDelete(id)) &&
      Aside(s, w, OthersDelete(id))
    ensures LeavesOwn(s, w, Unrecord(w, id), spoiled)
  {
    var w' := Unrecord(w, id);
    forall v | v != w.rows[id].path && Recorded(w, v) ensures Recorded(w', v) {
      var i :| i in w.rows && w.rows[i].path == v;
      assert i in w'.rows && w'.rows[i].path == v;
    }
    forall v | OkRowOf(w', s.job, v) ensures OkRowOf(w, s.job, v) {
      var i :| i in w'.rows && w'.rows[i].ok && w'.rows[i].path == v && RowNames(w'.rows[i], s.job);
      assert i in w.rows;
    }
  }

  lemma PassKeepsOwn(s: Setting, w: World, spoiled: set<VersionPath>)
    requires OwnOk(s, w, spoiled)
    ensures OwnOk(s, Do(w, Pass), spoiled)
    ensures Quiet(s, w, spoiled) ==> Quiet(s, Do(w, Pass), spoiled)
  {
    SameVersionsOwnOk(s, w, Do(w, Pass), spoiled);
    if Quiet(s, w, spoiled) {
      SameVersionsQuiet(s, w, Do(w, Pass), spoiled);
    }
  }

  lemma EventLeavesOwn(s: Setting, w: World, spoiled: set<VersionPath>, e: Event)
    requires Inv(w, spoiled) && OneClaim(w, s.job, spoiled) && Enabled(s, w, e) && Aside(s, w, e) && !e.Pass?
    ensures LeavesOwn(s, w, Do(w, e), spoiled + Touched(e))
  {
    assert spoiled + {} == spoiled;
    match e
    case Change(n, d) => DirLeavesOwn(s, w, spoiled, n, d);
    case OthersDir(n, d) => DirLeavesOwn(s, w, spoiled, n, d);
    case OthersInsert(row) => InsertLeavesOwn(s, w, spoiled, row);
    case OthersDelete(id) => DeleteLeavesOwn(s, w, spoiled, id);
  }

  lemma EventKeepsOwn(s: Setting, w: World, spoiled: set<VersionPath>, e: Event)
    requires Inv(w, spoiled) && OwnOk(s, w, spoiled) && Enabled(s, w, e) && Aside(s, w, e)
    ensures OwnOk(s, Do(w, e), spoiled + Touched(e))
    ensures Quiet(s, w, spoiled) ==> Quiet(s, Do(w, e), spoiled + Touched(e))
  {
    if e.Pass? {
      assert spoiled + {} == spoiled;
      PassKeepsOwn(s, w, spoiled);
    } else {
      EventLeavesOwn(s, w, spoiled, e);
      LeftOwnOk(s, w, Do(w, e), spoiled, spoiled + Touched(e));
    }
  }

  /** The rows of this integration stay. */
  lemma EventKeepsRows(s: Setting, w: World, spoiled: set<VersionPath>, e: Event)
    requires Inv(w, spoiled) && Enabled(s, w, e)
    ensures forall i :: i in Listed(s, w) ==> i in Do(w, e).rows && Do(w, e).rows[i] == w.rows[i]
  {
  }

  // ---- Some events in a row ----

  /** The versions a list of events is about. */
  function About(es: seq<Event>): set<VersionPath> {
    if es == [] then {} else About(es[..|es| - 1]) + Touched(es[|es| - 1])
  }

  /** What the events that can happen make of w, one after another. */
  function After(s: Setting, w: World, es: seq<Event>): World {
    if es == [] then w
    else
      var mid, e := After(s, w, es[..|es| - 1]), es[|es| - 1];
      if Enabled(s, mid, e) then Do(mid, e) else mid
  }

  function SpoiledAfter(s: Setting, w: World, spoiled: set<VersionPath>, es: seq<Event>): set<VersionPath> {
    if es == [] then spoiled
    else
      var was, e := SpoiledAfter(s, w, spoiled, es[..|es| - 1]), es[|es| - 1];
      if Enabled(s, After(s, w, es[..|es| - 1]), e) then was + Touched(e) else was
  }

  /** Each of them, when it happens, is not about what this job wrote. */
  predicate AllAside(s: Setting, w: World, es: seq<Event>) {
    es == [] ||
    (var mid, e := After(s, w, es[..|es| - 1]), es[|es| - 1];
     && AllAside(s, w, es[..|es| - 1])
     && (Enabled(s, mid, e) ==> Aside(s, mid, e)))
  }

  /** Whatever happens, the invariant holds about the versions nothing else changed, and the rows of this
      integration stay. */
  lemma {:induction false} AfterKeeps(s: Setting, w: World, spoiled: set<VersionPath>, es: seq<Event>)
    requires Inv(w, spoiled)
    ensures Inv(After(s, w, es), SpoiledAfter(s, w, spoiled, es))
    ensures spoiled <= SpoiledAfter(s, w, spoiled, es) <= spoiled + About(es)
    ensures forall i :: i in Listed(s, w) ==> i in After(s, w, es).rows && After(s, w, es).rows[i] == w.rows[i]
  {
    if es != [] {
      var before, e := es[..|es| - 1], es[|es| - 1];
      AfterKeeps(s, w, spoiled, before);
      var mid, was := After(s, w, before), SpoiledAfter(s, w, spoiled, before);
      if Enabled(s, mid, e) {
        EventKeeps(s, mid, was, e);
        EventKeepsRows(s, mid, was, e);
      }
    }
  }

  /** Events aside from what this job wrote leave it as it was. */
  lemma {:induction false} AfterKeepsOwn(s: Setting, w: World, spoiled: set<VersionPath>, es: seq<Event>)
    requires Inv(w, spoiled) && OwnOk(s, w, spoiled) && AllAside(s, w, es)
    ensures OwnOk(s, After(s, w, es), SpoiledAfter(s, w, spoiled, es))
    ensures Quiet(s, w, spoiled) ==> Quiet(s, After(s, w, es), SpoiledAfter(s, w, spoiled, es))
  {
    if es != [] {
      var before, e := es[..|es| - 1], es[|es| - 1];
      AfterKeeps(s, w, spoiled, before);
      AfterKeepsOwn(s, w, spoiled, before);
      var mid, was := After(s, w, before), SpoiledAfter(s, w, spoiled, before);
      if Enabled(s, mid, e) {
        EventKeepsOwn(s, mid, was, e);
      }
    }
  }

  /** Time that passes is always aside. */
  lemma {:induction false} PassingIsAside(s: Setting, w: World, es: seq<Event>)
    requires forall e :: e in es ==> e.Pass?
    ensures AllAside(s, w, es)
  {
    if es != [] {
      assert es[|es| - 1] in es;
      PassingIsAside(s, w, es[..|es| - 1]);
    }
  }
}
