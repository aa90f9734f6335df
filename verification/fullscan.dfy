/** The full scan as one function of the tree and the catalog, its crash points, and what holds
    after it. */
module FullScan {
  import opened Wrappers
  import opened Bytes
  import opened Paths
  import opened Tree
  import opened Groups
  import opened Catalog
  import opened CatalogStats

  /** A source's catalog state. */
  datatype Source = Source(id: nat, rows: Rows, scanSeq: nat, stats: Stats)

  /** The check of a group on a FUSE source: keep it, drop it, or (None) a failing mount. Elsewhere
      every group is kept. */
  type Confirm = Group -> Option<bool>

  function ConfirmAll(confirm: Confirm, groups: seq<Group>): Option<seq<Group>> {
    if groups == [] then Some([])
    else
      var n := |groups| - 1;
      match (ConfirmAll(confirm, groups[..n]), confirm(groups[n]))
      case (Some(kept), Some(keep)) => Some(if keep then kept + [groups[n]] else kept)
      case _ => None
  }

  lemma {:induction false} ConfirmedAreGroups(confirm: Confirm, groups: seq<Group>)
    requires ConfirmAll(confirm, groups).Some?
    ensures forall g :: g in ConfirmAll(confirm, groups).value ==> g in groups
  {
    if groups != [] { ConfirmedAreGroups(confirm, groups[..|groups| - 1]); }
  }

  /** openRoot and loadForbidden: the root is a directory, not forbidden, and holds no key under
      any spelling. */
  predicate RootOk(r: Rules, root: Node) {
    root.Dir? && root.id !in r.forbidden && root.key.NoKey?
  }

  function Everywhere(p: Str): bool { true }

  /** The root is empty while the catalog has live files. */
  ghost predicate LooksUnmounted(rows: Rows, files: seq<Walked>) {
    files == [] && LiveSet(rows) != {}
  }

  /** What the read-only part of a full scan found; None is a refused scan. */
  ghost function Look(s: Source, r: Rules, root: Node, confirm: Confirm): Option<(Walk, seq<Group>)> {
    if !RootOk(r, root) then None
    else
      var w := WalkDir(r, root, ROOT);
      if w.Refused? || LooksUnmounted(s.rows, w.files) then None
      else match ConfirmAll(confirm, Plan(LinksOf(w.files)))
        case None => None
        case Some(groups) => Some((w, groups))
  }

  ghost function FinishFull(s: Source, rows: Rows, w: Walk, groups: seq<Group>, stamp: Stamp): Source
    requires w.Seen?
  {
    var rows' := Finish(rows, stamp, w.unreadable, Everywhere, rows.Keys, groups, s.id, s.scanSeq + 1);
    Source(s.id, rows', s.scanSeq + 1, ComputeStats(rows', w.skipped))
  }

  /** It takes the rows it is given. */
  lemma FinishFullOf(s: Source, others: Rows, rows: Rows, w: Walk, groups: seq<Group>, stamp: Stamp)
    requires w.Seen?
    ensures FinishFull(s.(rows := others), rows, w, groups, stamp) == FinishFull(s, rows, w, groups, stamp)
  {
  }

  /** A full scan that ends: None is a refused one, which changes nothing. */
  ghost function Scan(s: Source, r: Rules, root: Node, confirm: Confirm, stamp: Stamp): Option<Source> {
    match Look(s, r, root, confirm)
    case None => None
    case Some((w, groups)) => Some(FinishFull(s, Committed(s.rows, w.files, stamp), w, groups, stamp))
  }

  /** A full scan cut off (crashed or cancelled) before its final transaction, i changed and j unchanged
      rows committed. */
  ghost predicate CutOff(s: Source, r: Rules, root: Node, confirm: Confirm, stamp: Stamp, i: nat, j: nat, s': Source) {
    match Look(s, r, root, confirm)
    case None => s' == s
    case Some((w, _)) =>
      && i <= |Pending(s.rows, w.files)| && j <= |Unchanged(s.rows, w.files)|
      && s' == s.(rows := CommitPrefix(s.rows, w.files, stamp, i, j))
  }

  lemma WalkedRootIsEnterable(r: Rules, root: Node)
    requires RootOk(r, root) && WalkDir(r, root, ROOT).Seen?
    ensures Enterable(root)
  {
  }

  lemma LookIsExact(s: Source, r: Rules, root: Node, confirm: Confirm)
    requires WellFormed(root) && Look(s, r, root, confirm).Some?
    ensures Enterable(root)
    ensures var w := WalkDir(r, root, ROOT);
      && w.Seen? && Look(s, r, root, confirm).value.0 == w
      && DistinctBy(RelOf, w.files)
      && forall p :: Agrees(w, p, Reach(r, root, ROOT, Split(p)))
  {
    WalkedRootIsEnterable(r, root);
    WalkFilesDistinct(r, root);
    forall p ensures Agrees(WalkDir(r, root, ROOT), p, Reach(r, root, ROOT, Split(p))) {
      WalkExact(r, root, p);
    }
  }

  /** The file the walk reaches at p. */
  function FileAt(r: Rules, root: Node, p: Str): Option<Meta> {
    match Reach(r, root, ROOT, Split(p))
    case Some(File(m)) => Some(m)
    case _ => None
  }

  /** p lies under a folder the walk reaches but cannot read. */
  ghost predicate Hidden(r: Rules, root: Node, p: Str) {
    exists d :: Inside(p, d) && Reach(r, root, ROOT, Split(d)).Some? && Unreadable(Reach(r, root, ROOT, Split(d)).value)
  }

  lemma WalkedIsFileAt(r: Rules, root: Node, w: Walk, p: Str)
    requires w.Seen? && Agrees(w, p, Reach(r, root, ROOT, Split(p)))
    ensures MetaAt(w.files, p) == FileAt(r, root, p)
  {
    if MetaAt(w.files, p).Some? { assert Walked(p, MetaAt(w.files, p).value) in w.files; }
    if FileAt(r, root, p).Some? { assert Walked(p, FileAt(r, root, p).value) in w.files; }
  }

  lemma UnreadableIsHidden(r: Rules, root: Node, w: Walk, p: Str)
    requires w.Seen? && forall d :: Agrees(w, d, Reach(r, root, ROOT, Split(d)))
    ensures UnderUnreadable(p, w.unreadable) <==> Hidden(r, root, p)
  {
    forall d ensures d in w.unreadable <==>
        Reach(r, root, ROOT, Split(d)).Some? && Unreadable(Reach(r, root, ROOT, Split(d)).value)
    {
      assert Agrees(w, d, Reach(r, root, ROOT, Split(d)));
    }
  }

  lemma FinishFullAt(s: Source, w: Walk, groups: seq<Group>, stamp: Stamp, p: Str)
    requires w.Seen? && DistinctBy(RelOf, w.files)
    ensures RowAt(FinishFull(s, Committed(s.rows, w.files, stamp), w, groups, stamp).rows, p)
         == RowAfter(RowAt(s.rows, p), MetaAt(w.files, p), UnderUnreadable(p, w.unreadable), true,
           GidAt(groups, s.id, s.scanSeq + 1, p), stamp)
  {
    var rows := Committed(s.rows, w.files, stamp);
    CommittedAt(s.rows, w.files, stamp, p);
    CommitThenFinishAt(s.rows, w.files, stamp, w.unreadable, Everywhere, rows.Keys, groups, s.id, s.scanSeq + 1, p);
  }

  lemma GroupsMentionCandidates(ws: seq<Walked>, groups: seq<Group>, p: Str)
    requires forall g :: g in groups ==> g in Plan(LinksOf(ws))
    ensures GroupAt(groups, p).Some? ==> MetaAt(ws, p).Some?
  {
    if GroupAt(groups, p).Some? {
      var g := groups[GroupAt(groups, p).value];
      assert g in groups;
      var k := BucketOf(ws, LinksOf(ws).Keys, g);
      var w :| w in g && w.rel == p;
      assert w in CandsAt(ws, k);
    }
  }

  /** After a successful full scan the live rows are exactly the files the walk reaches, with their
      metadata, and the rows that were live under folders it could not read (or that already carried
      this scan's stamp). */
  lemma ScanExact(s: Source, r: Rules, root: Node, confirm: Confirm, stamp: Stamp, p: Str)
    requires WellFormed(root) && Scan(s, r, root, confirm, stamp).Some?
    ensures LiveMeta(Scan(s, r, root, confirm, stamp).value.rows, p) ==
      if FileAt(r, root, p).Some? then FileAt(r, root, p)
      else if Live(s.rows, p) && (Hidden(r, root, p) || s.rows[p].lastSeen == stamp) then Some(s.rows[p].m)
      else None
  {
    LookIsExact(s, r, root, confirm);
    var (w, groups) := Look(s, r, root, confirm).value;
    WalkedIsFileAt(r, root, w, p);
    UnreadableIsHidden(r, root, w, p);
    FinishFullAt(s, w, groups, stamp, p);
  }

  /** The whole rows after a successful full scan: a reached file's row is live and stamped; no row goes, and one that
      is not reached keeps what it says, but is marked deleted by this scan when it was live and is not hidden. */
  lemma ScanRows(s: Source, r: Rules, root: Node, confirm: Confirm, stamp: Stamp, p: Str)
    requires WellFormed(root) && Scan(s, r, root, confirm, stamp).Some?
    ensures var s' := Scan(s, r, root, confirm, stamp).value;
      && s'.id == s.id && s'.scanSeq == s.scanSeq + 1
      && (p in s'.rows <==> p in s.rows || FileAt(r, root, p).Some?)
      && (FileAt(r, root, p).Some? ==>
          Live(s'.rows, p) && s'.rows[p].m == FileAt(r, root, p).value && s'.rows[p].lastSeen == stamp)
      && (FileAt(r, root, p).None? && p in s.rows ==>
          && s'.rows[p].m == s.rows[p].m && s'.rows[p].lastSeen == s.rows[p].lastSeen && s'.rows[p].group.None?
          && s'.rows[p].deletedAt ==
             if Live(s.rows, p) && !Hidden(r, root, p) && s.rows[p].lastSeen != stamp then Some(stamp)
             else s.rows[p].deletedAt)
  {
    LookIsExact(s, r, root, confirm);
    var (w, groups) := Look(s, r, root, confirm).value;
    WalkedIsFileAt(r, root, w, p);
    UnreadableIsHidden(r, root, w, p);
    FinishFullAt(s, w, groups, stamp, p);
    ConfirmedAreGroups(confirm, Plan(LinksOf(w.files)));
    GroupsMentionCandidates(w.files, groups, p);
  }

  /** No scan that is refused, cancelled or crashes marks a live row deleted. */
  lemma CutOffDeletesNothing(s: Source, r: Rules, root: Node, confirm: Confirm, stamp: Stamp, i: nat, j: nat,
      s': Source, p: Str)
    requires WellFormed(root) && CutOff(s, r, root, confirm, stamp, i, j, s')
    ensures Live(s.rows, p) ==> Live(s'.rows, p)
    ensures p in s'.rows && s'.rows[p].deletedAt.Some? ==> p in s.rows && s'.rows[p] == s.rows[p]
  {
    if Look(s, r, root, confirm).Some? {
      LookIsExact(s, r, root, confirm);
      var (w, _) := Look(s, r, root, confirm).value;
      CommitPrefixAt(s.rows, w.files, stamp, i, j, p);
    }
  }

  // ---- Running again after crashes ----

  /** t is what scans of one tree (walked files ws) that were cut off made of s. */
  ghost predicate Between(s: Source, ws: seq<Walked>, t: Source) {
    && t.id == s.id && t.scanSeq == s.scanSeq
    && forall p ::
         || RowAt(t.rows, p) == RowAt(s.rows, p)
         || (MetaAt(ws, p).Some? && Live(t.rows, p)
             && (t.rows[p].m == MetaAt(ws, p).value || (Live(s.rows, p) && t.rows[p].m == s.rows[p].m)))
  }

  lemma CutOffStaysBetween(s: Source, r: Rules, root: Node, confirm: Confirm, t: Source,
      stamp: Stamp, i: nat, j: nat, t': Source)
    requires WellFormed(root) && Look(s, r, root, confirm).Some?
    requires Between(s, WalkDir(r, root, ROOT).files, t) && CutOff(t, r, root, confirm, stamp, i, j, t')
    ensures Between(s, WalkDir(r, root, ROOT).files, t')
  {
    LookIsExact(s, r, root, confirm);
    if Look(t, r, root, confirm).Some? {
      LookIsExact(t, r, root, confirm);
      var (w, _) := Look(t, r, root, confirm).value;
      forall p ensures
        || RowAt(t'.rows, p) == RowAt(s.rows, p)
        || (MetaAt(w.files, p).Some? && Live(t'.rows, p)
            && (t'.rows[p].m == MetaAt(w.files, p).value || (Live(s.rows, p) && t'.rows[p].m == s.rows[p].m)))
      {
        CommitPrefixAt(t.rows, w.files, stamp, i, j, p);
      }
    }
  }

  /** Equal but for stamps: same keys, metadata, groups and deleted marks. */
  ghost predicate SameButStamps(a: Rows, b: Rows) {
    forall p :: AlikeRows(RowAt(a, p), RowAt(b, p))
  }

  ghost predicate Fresh(rows: Rows, stamp: Stamp) {
    forall p :: p in rows ==> rows[p].lastSeen != stamp
  }

  lemma BetweenLooksAlike(s: Source, r: Rules, root: Node, confirm: Confirm, t: Source)
    requires WellFormed(root) && Look(s, r, root, confirm).Some?
    requires Between(s, WalkDir(r, root, ROOT).files, t)
    ensures Look(t, r, root, confirm) == Look(s, r, root, confirm)
  {
    forall p | p in LiveSet(t.rows) && p !in LiveSet(s.rows)
      ensures MetaAt(WalkDir(r, root, ROOT).files, p).Some?
    {
      assert RowAt(t.rows, p) != RowAt(s.rows, p);
    }
  }

  /** What of a row is no stamp: its metadata, its group, and whether it is deleted. */
  function ButStamps(row: Option<Row>): Option<(Meta, Option<Str>, bool)> {
    match row
    case None => None
    case Some(x) => Some((x.m, x.group, x.deletedAt.Some?))
  }

  /** Two rows alike but for their stamps. */
  predicate AlikeRows(a: Option<Row>, b: Option<Row>) {
    ButStamps(a) == ButStamps(b)
  }

  /** Two finished rows of one path, of rows that were between, are alike. */
  lemma RowsConverge(was: Option<Row>, half: Option<Row>, found: Option<Meta>, hidden: bool, gid: Option<Str>,
      stamp: Stamp, again: Stamp)
    requires half == was || (found.Some? && half.Some? && half.value.deletedAt.None?)
    requires was.Some? ==> was.value.lastSeen != stamp
    requires half.Some? ==> half.value.lastSeen != again
    ensures AlikeRows(RowAfter(half, found, hidden, true, gid, again), RowAfter(was, found, hidden, true, gid, stamp))
  {
  }

  /** The rows a full scan that saw w leaves. */
  ghost function FullRows(s: Source, w: Walk, groups: seq<Group>, stamp: Stamp): Rows
    requires w.Seen?
  {
    FinishFull(s, Committed(s.rows, w.files, stamp), w, groups, stamp).rows
  }

  lemma FullRowAt(s: Source, w: Walk, groups: seq<Group>, stamp: Stamp, p: Str, found: Option<Meta>, hidden: bool,
      gid: Option<Str>)
    requires w.Seen? && DistinctBy(RelOf, w.files)
    requires found == MetaAt(w.files, p) && hidden == UnderUnreadable(p, w.unreadable)
    requires gid == GidAt(groups, s.id, s.scanSeq + 1, p)
    ensures RowAt(FullRows(s, w, groups, stamp), p) == RowAfter(RowAt(s.rows, p), found, hidden, true, gid, stamp)
  {
    FinishFullAt(s, w, groups, stamp, p);
  }

  lemma FinishesAlikeAt(s: Source, t: Source, w: Walk, groups: seq<Group>, stamp: Stamp, again: Stamp, p: Str,
      found: Option<Meta>, hidden: bool, gid: Option<Str>)
    requires w.Seen? && DistinctBy(RelOf, w.files) && t.id == s.id && t.scanSeq == s.scanSeq
    requires found == MetaAt(w.files, p) && hidden == UnderUnreadable(p, w.unreadable)
    requires gid == GidAt(groups, s.id, s.scanSeq + 1, p)
    requires RowAt(t.rows, p) == RowAt(s.rows, p) || (found.Some? && Live(t.rows, p))
    requires p in s.rows ==> s.rows[p].lastSeen != stamp
    requires p in t.rows ==> t.rows[p].lastSeen != again
    ensures AlikeRows(RowAt(FullRows(t, w, groups, again), p), RowAt(FullRows(s, w, groups, stamp), p))
  {
    FullRowAt(t, w, groups, again, p, found, hidden, gid);
    FullRowAt(s, w, groups, stamp, p, found, hidden, gid);
    RowsConverge(RowAt(s.rows, p), RowAt(t.rows, p), found, hidden, gid, stamp, again);
  }

  /** A full scan run again on the same tree, from whatever scans of it that were cut off left, ends
      with the rows, groups and group ids of one that never stopped. */
  lemma RerunConverges(s: Source, r: Rules, root: Node, confirm: Confirm, stamp: Stamp, t: Source, again: Stamp)
    requires WellFormed(root) && Scan(s, r, root, confirm, stamp).Some?
    requires Between(s, WalkDir(r, root, ROOT).files, t)
    requires Fresh(s.rows, stamp) && Fresh(t.rows, again)
    ensures Scan(t, r, root, confirm, again).Some?
    ensures SameButStamps(Scan(t, r, root, confirm, again).value.rows, Scan(s, r, root, confirm, stamp).value.rows)
    ensures Scan(t, r, root, confirm, again).value.scanSeq == Scan(s, r, root, confirm, stamp).value.scanSeq
    ensures Scan(t, r, root, confirm, again).value.stats == Scan(s, r, root, confirm, stamp).value.stats
  {
    LookIsExact(s, r, root, confirm);
    BetweenLooksAlike(s, r, root, confirm, t);
    var (w, groups) := Look(s, r, root, confirm).value;
    var a, b := Scan(t, r, root, confirm, again).value, Scan(s, r, root, confirm, stamp).value;
    forall p ensures AlikeRows(RowAt(a.rows, p), RowAt(b.rows, p)) {
      FinishesAlikeAt(s, t, w, groups, stamp, again, p, MetaAt(w.files, p), UnderUnreadable(p, w.unreadable),
        GidAt(groups, s.id, s.scanSeq + 1, p));
    }
    SameStats(a.rows, b.rows, w.skipped);
  }

  lemma SameStats(a: Rows, b: Rows, skipped: nat)
    requires SameButStamps(a, b)
    ensures ComputeStats(a, skipped) == ComputeStats(b, skipped)
  {
    forall p
      ensures (p in a <==> p in b) &&
        (p in a ==> a[p].m == b[p].m && a[p].group == b[p].group && (Live(a, p) <==> Live(b, p)))
    {
      assert AlikeRows(RowAt(a, p), RowAt(b, p));
    }
    StatsAlike(a, b, skipped);
  }

  /** Any number of cut-off scans of one tree. */
  datatype Cut = Cut(stamp: Stamp, i: nat, j: nat)

  ghost predicate CutOffs(s: Source, r: Rules, root: Node, confirm: Confirm, cuts: seq<Cut>, t: Source) {
    if cuts == [] then t == s
    else
      var c := cuts[|cuts| - 1];
      exists u :: CutOffs(s, r, root, confirm, cuts[..|cuts| - 1], u) &&
        CutOff(u, r, root, confirm, c.stamp, c.i, c.j, t)
  }

  lemma {:induction false} CutOffsStayBetween(s: Source, r: Rules, root: Node, confirm: Confirm, cuts: seq<Cut>,
      t: Source)
    requires WellFormed(root) && Look(s, r, root, confirm).Some?
    requires CutOffs(s, r, root, confirm, cuts, t)
    ensures Between(s, WalkDir(r, root, ROOT).files, t)
  {
    if cuts != [] {
      var c := cuts[|cuts| - 1];
      var u :| CutOffs(s, r, root, confirm, cuts[..|cuts| - 1], u) && CutOff(u, r, root, confirm, c.stamp, c.i, c.j, t);
      CutOffsStayBetween(s, r, root, confirm, cuts[..|cuts| - 1], u);
      CutOffStaysBetween(s, r, root, confirm, u, c.stamp, c.i, c.j, t);
    }
  }

  /** A scan cut off any number of times and then run to its end leaves what one run would have. */
  lemma CrashesDoNotMatter(s: Source, r: Rules, root: Node, confirm: Confirm, stamp: Stamp, cuts: seq<Cut>, t: Source,
      again: Stamp)
    requires WellFormed(root) && Scan(s, r, root, confirm, stamp).Some?
    requires CutOffs(s, r, root, confirm, cuts, t)
    requires Fresh(s.rows, stamp) && Fresh(t.rows, again)
    ensures Scan(t, r, root, confirm, again).Some?
    ensures SameButStamps(Scan(t, r, root, confirm, again).value.rows, Scan(s, r, root, confirm, stamp).value.rows)
    ensures Scan(t, r, root, confirm, again).value.scanSeq == Scan(s, r, root, confirm, stamp).value.scanSeq
    ensures Scan(t, r, root, confirm, again).value.stats == Scan(s, r, root, confirm, stamp).value.stats
  {
    CutOffsStayBetween(s, r, root, confirm, cuts, t);
    RerunConverges(s, r, root, confirm, stamp, t, again);
  }
}
