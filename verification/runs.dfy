/** Any run of full scans, targeted scans and scans that are cut off: what holds at every committed
    point. */
module Runs {
  import opened Sets
  import opened Wrappers
  import opened Bytes
  import opened Paths
  import opened Tree
  import opened Groups
  import opened Catalog
  import opened CatalogStats
  import opened FullScan
  import opened Hardlinks
  import opened Targets
  import opened Refinement

  datatype Kind = FullDone | FullCut(i: nat, j: nat) | PathsDone(ts: seq<Str>) | PathsCut(ts: seq<Str>, i: nat, j: nat)

  datatype Event = Event(kind: Kind, rules: Rules, root: Node, confirm: Confirm, stamp: Stamp)

  ghost predicate Step(s: Source, e: Event, s': Source) {
    && WellFormed(e.root)
    && match e.kind
       case FullDone => Scan(s, e.rules, e.root, e.confirm, e.stamp) == Some(s')
       case FullCut(i, j) => CutOff(s, e.rules, e.root, e.confirm, e.stamp, i, j, s')
       case PathsDone(ts) =>
         && TargetList(ts)
         && ScanPaths(s, e.rules, e.root, e.confirm, ts, e.stamp).Some?
         && s' == ScanPaths(s, e.rules, e.root, e.confirm, ts, e.stamp).value.1
       case PathsCut(ts, i, j) => TargetList(ts) && CutOffPaths(s, e.rules, e.root, e.confirm, ts, e.stamp, i, j, s')
  }

  ghost predicate Run(ss: seq<Source>, es: seq<Event>) {
    && |ss| == |es| + 1
    && forall i :: 0 <= i < |es| ==> Step(ss[i], es[i], ss[i + 1])
  }

  /** The group of the row at p: its rows are live, agree in their metadata and are at most as many
      as their link count, which is at least 2; a scan so far made its id. */
  ghost predicate GroupIsOk(s: Source, p: Str)
    requires p in s.rows && s.rows[p].group.Some?
  {
    var g, m := s.rows[p].group.value, s.rows[p].m;
    && Live(s.rows, p) && m.nlink >= 2 && |Members(s.rows, g)| <= m.nlink
    && MadeBy(s.id, s.scanSeq, g)
    && forall q :: q in s.rows && s.rows[q].group == Some(g) ==> s.rows[q].m == m
  }

  ghost predicate GroupsOk(s: Source) {
    forall p :: p in s.rows && s.rows[p].group.Some? ==> GroupIsOk(s, p)
  }

  /** g is an id of the scan with number scanSeq. */
  ghost predicate MadeAt(id: nat, scanSeq: nat, g: Str) {
    exists n: nat :: g == GroupId(id, scanSeq, n)
  }

  ghost predicate MadeBy(id: nat, scanSeq: nat, g: Str) {
    exists q: nat :: q <= scanSeq && MadeAt(id, q, g)
  }

  lemma MadeOnce(id: nat, q: nat, r: nat, g: Str)
    requires MadeAt(id, q, g) && MadeAt(id, r, g)
    ensures q == r
  {
    var n: nat :| g == GroupId(id, q, n);
    var m: nat :| g == GroupId(id, r, m);
    GroupIdInjective(id, q, n, id, r, m);
  }

  ghost predicate InUse(s: Source, g: Str) {
    exists p :: p in s.rows && s.rows[p].group == Some(g)
  }

  // ---- The two kinds of change ----

  /** A row with a group that had it before, with its metadata. */
  ghost predicate KeptRow(s: Source, s': Source, p: Str)
    requires p in s'.rows
  {
    && p in s.rows && s.rows[p].group == s'.rows[p].group && s.rows[p].m == s'.rows[p].m
    && s.rows[p].deletedAt == s'.rows[p].deletedAt
  }

  /** A row in the n-th group of this scan. */
  ghost predicate NewRow(s: Source, s': Source, ws: seq<Walked>, n: nat, p: Str)
    requires p in s'.rows
  {
    && s'.rows[p].group == Some(GroupId(s.id, s.scanSeq + 1, n + 1))
    && MetaAt(ws, p) == Some(s'.rows[p].m) && Live(s'.rows, p)
  }

  ghost predicate ScannedRow(s: Source, s': Source, ws: seq<Walked>, groups: seq<Group>, p: Str)
    requires p in s'.rows
  {
    match GroupAt(groups, p)
    case Some(n) => NewRow(s, s', ws, n, p)
    case None => KeptRow(s, s', p)
  }

  /** Batches of a scan that did not finish. */
  ghost predicate CutChange(s: Source, s': Source) {
    && s'.id == s.id && s'.scanSeq == s.scanSeq
    && forall p :: p in s'.rows && s'.rows[p].group.Some? ==> KeptRow(s, s', p)
  }

  /** A finished scan that saw ws and stored groups. */
  ghost predicate ScanChange(s: Source, s': Source, ws: seq<Walked>, groups: seq<Group>) {
    && s'.id == s.id && s'.scanSeq == s.scanSeq + 1
    && DistinctBy(RelOf, ws)
    && (forall g :: g in groups ==> g in Plan(LinksOf(ws)))
    && forall p :: p in s'.rows && s'.rows[p].group.Some? ==> ScannedRow(s, s', ws, groups, p)
  }

  lemma CommitIsCutChange(s: Source, ws: seq<Walked>, stamp: Stamp, i: nat, j: nat, s': Source)
    requires DistinctBy(RelOf, ws) && i <= |Pending(s.rows, ws)| && j <= |Unchanged(s.rows, ws)|
    requires s' == s.(rows := CommitPrefix(s.rows, ws, stamp, i, j))
    ensures CutChange(s, s')
  {
    forall p | p in s'.rows && s'.rows[p].group.Some? ensures KeptRow(s, s', p) {
      CommitPrefixAt(s.rows, ws, stamp, i, j, p);
    }
  }

  /** Every step of a run is one of the two (or writes nothing). */
  lemma StepChanges(s: Source, e: Event, s': Source) returns (ws: seq<Walked>, groups: seq<Group>)
    requires Step(s, e, s')
    ensures CutChange(s, s') || ScanChange(s, s', ws, groups)
  {
    ws, groups := [], [];
    match e.kind
    case FullDone =>
      LookIsExact(s, e.rules, e.root, e.confirm);
      var (w, gs) := Look(s, e.rules, e.root, e.confirm).value;
      ws, groups := w.files, gs;
      FullIsScanChange(s, e, s', w, gs);
    case FullCut(i, j) =>
      if Look(s, e.rules, e.root, e.confirm).Some? {
        LookIsExact(s, e.rules, e.root, e.confirm);
        CommitIsCutChange(s, Look(s, e.rules, e.root, e.confirm).value.0.files, e.stamp, i, j, s');
      }
    case PathsDone(ts) =>
      var f := LookTargets(s, e.rules, e.root, e.confirm, ts).value;
      if Scopes(f.out) != [] {
        FoundIsExact(s, e.rules, e.root, e.confirm, ts);
        ws, groups := f.walk.files + f.partners, f.groups;
        PathsIsScanChange(s, e, ts, s', f);
      }
    case PathsCut(ts, i, j) =>
      if LookTargets(s, e.rules, e.root, e.confirm, ts).Some? {
        FoundIsExact(s, e.rules, e.root, e.confirm, ts);
        var f := LookTargets(s, e.rules, e.root, e.confirm, ts).value;
        if Scopes(f.out) != [] { CommitIsCutChange(s, f.walk.files + f.partners, e.stamp, i, j, s'); }
      }
  }

  lemma AfterIsScannedRow(s: Source, s': Source, ws: seq<Walked>, groups: seq<Group>, hidden: bool, inScope: bool,
      stamp: Stamp, p: Str)
    requires p in s'.rows && s'.rows[p].group.Some?
    requires GroupAt(groups, p).Some? ==> MetaAt(ws, p).Some?
    requires RowAt(s'.rows, p)
          == RowAfter(RowAt(s.rows, p), MetaAt(ws, p), hidden, inScope, GidAt(groups, s.id, s.scanSeq + 1, p), stamp)
    ensures ScannedRow(s, s', ws, groups, p)
  {
    if MetaAt(ws, p).Some? {
      assert s'.rows[p] == Row(MetaAt(ws, p).value, GidAt(groups, s.id, s.scanSeq + 1, p), None, stamp);
    }
  }

  lemma FullIsScanChange(s: Source, e: Event, s': Source, w: Walk, groups: seq<Group>)
    requires WellFormed(e.root) && Scan(s, e.rules, e.root, e.confirm, e.stamp) == Some(s')
    requires Look(s, e.rules, e.root, e.confirm) == Some((w, groups))
    ensures w.Seen? && ScanChange(s, s', w.files, groups)
  {
    LookIsExact(s, e.rules, e.root, e.confirm);
    ConfirmedAreGroups(e.confirm, Plan(LinksOf(w.files)));
    forall p | p in s'.rows && s'.rows[p].group.Some? ensures ScannedRow(s, s', w.files, groups, p) {
      FinishFullAt(s, w, groups, e.stamp, p);
      GroupsMentionCandidates(w.files, groups, p);
      AfterIsScannedRow(s, s', w.files, groups, UnderUnreadable(p, w.unreadable), true, e.stamp, p);
    }
  }

  lemma PathsIsScanChange(s: Source, e: Event, ts: seq<Str>, s': Source, f: Found)
    requires WellFormed(e.root) && TargetList(ts) && LookTargets(s, e.rules, e.root, e.confirm, ts) == Some(f)
    requires Scopes(f.out) != [] && s' == ScanPaths(s, e.rules, e.root, e.confirm, ts, e.stamp).value.1
    ensures f.walk.Seen? && ScanChange(s, s', f.walk.files + f.partners, f.groups)
  {
    FoundIsExact(s, e.rules, e.root, e.confirm, ts);
    var ws := f.walk.files + f.partners;
    forall p | p in s'.rows && s'.rows[p].group.Some? ensures ScannedRow(s, s', ws, f.groups, p) {
      ScanPathsAt(s, e.rules, e.root, e.confirm, ts, e.stamp, f, p);
      GroupsMentionCandidates(ws, f.groups, p);
      AfterIsScannedRow(s, s', ws, f.groups, UnderUnreadable(p, f.walk.unreadable), UnderAny(p, Scopes(f.out)), e.stamp,
        p);
    }
  }

  // ---- Both keep the groups ----

  lemma FewerMembers(s: Source, s': Source, g: Str)
    requires forall p :: p in Members(s'.rows, g) ==> p in Members(s.rows, g)
    ensures |Members(s'.rows, g)| <= |Members(s.rows, g)|
  {
    SmallerOrSame(Members(s'.rows, g), Members(s.rows, g));
  }

  lemma CutKeepsGroups(s: Source, s': Source)
    requires GroupsOk(s) && CutChange(s, s')
    ensures GroupsOk(s')
  {
    forall p | p in s'.rows && s'.rows[p].group.Some? ensures GroupIsOk(s', p) {
      FewerMembers(s, s', s'.rows[p].group.value);
    }
  }

  lemma {:induction false} RelsOfSize(ws: seq<Walked>)
    ensures |RelsOf(ws)| <= |ws|
  {
    if ws != [] {
      var n := |ws| - 1;
      RelsOfSize(ws[..n]);
      assert ws == ws[..n] + [ws[n]];
      assert RelsOf(ws) == RelsOf(ws[..n]) + {ws[n].rel};
    }
  }

  lemma OldIdsAreOld(s: Source, g: Str)
    requires MadeBy(s.id, s.scanSeq, g)
    ensures !MadeAt(s.id, s.scanSeq + 1, g)
  {
    var q: nat :| q <= s.scanSeq && MadeAt(s.id, q, g);
    if MadeAt(s.id, s.scanSeq + 1, g) { MadeOnce(s.id, q, s.scanSeq + 1, g); }
  }

  /** A row with the id of a new group is one of its names. */
  lemma NewGroupRow(s: Source, s': Source, ws: seq<Walked>, groups: seq<Group>, n: nat, q: Str)
    requires GroupsOk(s) && ScanChange(s, s', ws, groups) && n < |groups|
    requires q in s'.rows && s'.rows[q].group == Some(GroupId(s.id, s.scanSeq + 1, n + 1))
    ensures Walked(q, s'.rows[q].m) in groups[n] && Live(s'.rows, q)
  {
    var g := s'.rows[q].group.value;
    assert ScannedRow(s, s', ws, groups, q);
    assert MadeAt(s.id, s.scanSeq + 1, g);
    if GroupAt(groups, q).Some? {
      GroupIdInjective(s.id, s.scanSeq + 1, GroupAt(groups, q).value + 1, s.id, s.scanSeq + 1, n + 1);
      NameOfGroup(ws, groups, n, q);
    } else {
      OldIdsAreOld(s, g);
    }
  }

  lemma NameOfGroup(ws: seq<Walked>, groups: seq<Group>, n: nat, q: Str)
    requires DistinctBy(RelOf, ws) && n < |groups| && Mentions(groups[n], q) && MetaAt(ws, q).Some?
    requires forall g :: g in groups ==> g in Plan(LinksOf(ws))
    ensures Walked(q, MetaAt(ws, q).value) in groups[n]
  {
    assert groups[n] in groups;
    var k := BucketOf(ws, LinksOf(ws).Keys, groups[n]);
    var w :| w in groups[n] && w.rel == q;
    assert w in CandsAt(ws, k);
    SameRel(ws, w, Walked(q, MetaAt(ws, q).value));
  }

  /** The names of a planned group agree, and are no more than their link count. */
  lemma PlannedGroup(ws: seq<Walked>, g: Group) returns (m: Meta)
    requires g in Plan(LinksOf(ws))
    ensures m.nlink >= 2 && |g| <= m.nlink && forall w :: w in g ==> w.m == m
  {
    var k := BucketOf(ws, LinksOf(ws).Keys, g);
    var cands := CandsAt(ws, k);
    m := cands[0].m;
    assert cands[0] in cands;
    forall w | w in g ensures w.m == m { assert w in cands; }
  }

  lemma FewMembers(rows: Rows, g: Str, names: Group)
    requires forall q :: q in rows && rows[q].group == Some(g) ==> Walked(q, rows[q].m) in names
    ensures |Members(rows, g)| <= |names|
  {
    forall q | q in Members(rows, g) ensures q in RelsOf(names) {
      assert Walked(q, rows[q].m) in names;
    }
    SmallerOrSame(Members(rows, g), RelsOf(names));
    RelsOfSize(names);
  }

  /** The members of a new group are names of one inode, no more than its link count. */
  lemma NewGroup(s: Source, s': Source, ws: seq<Walked>, groups: seq<Group>, p: Str)
    requires GroupsOk(s) && ScanChange(s, s', ws, groups)
    requires p in s'.rows && s'.rows[p].group.Some? && GroupAt(groups, p).Some?
    ensures GroupIsOk(s', p)
  {
    var n := GroupAt(groups, p).value;
    var g := s'.rows[p].group.value;
    assert g == GroupId(s.id, s.scanSeq + 1, n + 1) by { assert ScannedRow(s, s', ws, groups, p); }
    assert MadeAt(s.id, s.scanSeq + 1, g);
    assert MadeBy(s'.id, s'.scanSeq, g);
    var m := PlannedGroup(ws, groups[n]);
    assert forall q :: q in s'.rows && s'.rows[q].group == Some(g) ==>
        Walked(q, s'.rows[q].m) in groups[n] && Live(s'.rows, q) && s'.rows[q].m == m by {
      forall q | q in s'.rows && s'.rows[q].group == Some(g)
        ensures Walked(q, s'.rows[q].m) in groups[n] && Live(s'.rows, q)
      {
        NewGroupRow(s, s', ws, groups, n, q);
      }
    }
    FewMembers(s'.rows, g, groups[n]);
  }

  lemma MadeNow(s: Source, groups: seq<Group>, q: Str)
    ensures GroupAt(groups, q).Some? ==>
      MadeAt(s.id, s.scanSeq + 1, GroupId(s.id, s.scanSeq + 1, GroupAt(groups, q).value + 1))
  {
  }

  /** The members of an old group that a scan did not regroup. */
  lemma OldGroup(s: Source, s': Source, ws: seq<Walked>, groups: seq<Group>, p: Str)
    requires GroupsOk(s) && ScanChange(s, s', ws, groups)
    requires p in s'.rows && s'.rows[p].group.Some? && GroupAt(groups, p).None?
    ensures GroupIsOk(s', p)
  {
    var g := s'.rows[p].group.value;
    assert ScannedRow(s, s', ws, groups, p);
    OldIdsAreOld(s, g);
    forall q | q in s'.rows && s'.rows[q].group == Some(g) ensures KeptRow(s, s', q) {
      assert ScannedRow(s, s', ws, groups, q);
      MadeNow(s, groups, q);
    }
    FewerMembers(s, s', g);
    var a: nat :| a <= s.scanSeq && MadeAt(s.id, a, g);
    assert a <= s'.scanSeq;
  }

  lemma ScanKeepsGroups(s: Source, s': Source, ws: seq<Walked>, groups: seq<Group>)
    requires GroupsOk(s) && ScanChange(s, s', ws, groups)
    ensures GroupsOk(s')
  {
    forall p | p in s'.rows && s'.rows[p].group.Some? ensures GroupIsOk(s', p) {
      if GroupAt(groups, p).Some? { NewGroup(s, s', ws, groups, p); } else { OldGroup(s, s', ws, groups, p); }
    }
  }

  lemma StepKeepsGroups(s: Source, e: Event, s': Source)
    requires GroupsOk(s) && Step(s, e, s')
    ensures GroupsOk(s')
  {
    var ws, groups := StepChanges(s, e, s');
    if CutChange(s, s') { CutKeepsGroups(s, s'); } else { ScanKeepsGroups(s, s', ws, groups); }
  }

  /** At every committed point of every run the hardlink groups are sound. */
  lemma {:induction false} RunKeepsGroups(ss: seq<Source>, es: seq<Event>, i: nat)
    requires Run(ss, es) && GroupsOk(ss[0]) && i < |ss|
    ensures GroupsOk(ss[i])
  {
    if i > 0 {
      RunKeepsGroups(ss, es, i - 1);
      StepKeepsGroups(ss[i - 1], es[i - 1], ss[i]);
    }
  }

  // ---- Group ids are never used again ----

  lemma ScanUses(s: Source, s': Source, ws: seq<Walked>, groups: seq<Group>, g: Str)
    requires ScanChange(s, s', ws, groups) && InUse(s', g)
    ensures InUse(s, g) || MadeAt(s.id, s.scanSeq + 1, g)
  {
    var p :| p in s'.rows && s'.rows[p].group == Some(g);
    assert ScannedRow(s, s', ws, groups, p);
    MadeNow(s, groups, p);
  }

  lemma CutUses(s: Source, s': Source, g: Str)
    requires CutChange(s, s') && InUse(s', g)
    ensures InUse(s, g)
  {
    var p :| p in s'.rows && s'.rows[p].group == Some(g);
    assert KeptRow(s, s', p);
  }

  /** An id in use was in use before, or is of a scan that has just ended. */
  lemma StepUses(s: Source, e: Event, s': Source, g: Str)
    requires Step(s, e, s') && InUse(s', g)
    ensures InUse(s, g) || MadeAt(s.id, s.scanSeq + 1, g)
  {
    var ws, groups := StepChanges(s, e, s');
    if CutChange(s, s') { CutUses(s, s', g); } else { ScanUses(s, s', ws, groups, g); }
  }

  lemma StepSeq(s: Source, e: Event, s': Source)
    requires Step(s, e, s')
    ensures s'.id == s.id && s.scanSeq <= s'.scanSeq
  {
    var ws, groups := StepChanges(s, e, s');
  }

  /** What every step does to the ids: the scan number never falls, and an id in use was in use
      before or is of a new scan. */
  ghost predicate IdChange(s: Source, s': Source) {
    && s'.id == s.id && s.scanSeq <= s'.scanSeq
    && forall g :: InUse(s', g) ==> InUse(s, g) || MadeAt(s.id, s.scanSeq + 1, g)
  }

  lemma StepIsIdChange(s: Source, e: Event, s': Source)
    requires Step(s, e, s')
    ensures IdChange(s, s')
  {
    StepSeq(s, e, s');
    forall g | InUse(s', g) ensures InUse(s, g) || MadeAt(s.id, s.scanSeq + 1, g) { StepUses(s, e, s', g); }
  }

  lemma NotMadeAgain(s: Source, later: nat, g: Str)
    requires GroupsOk(s) && InUse(s, g) && later > s.scanSeq
    ensures !MadeAt(s.id, later, g)
  {
    var p :| p in s.rows && s.rows[p].group == Some(g);
    assert GroupIsOk(s, p);
    var q: nat :| q <= s.scanSeq && MadeAt(s.id, q, g);
    if MadeAt(s.id, later, g) { MadeOnce(s.id, q, later, g); }
  }

  lemma {:induction false} NeverAgain(ss: seq<Source>, s0: Source, g: Str, j: nat)
    requires GroupsOk(s0) && InUse(s0, g) && j < |ss|
    requires ss[0].id == s0.id && ss[0].scanSeq >= s0.scanSeq && !InUse(ss[0], g)
    requires forall k :: 0 < k < |ss| ==> IdChange(ss[k - 1], ss[k])
    ensures ss[j].id == s0.id && ss[j].scanSeq >= s0.scanSeq && !InUse(ss[j], g)
  {
    if j > 0 {
      NeverAgain(ss, s0, g, j - 1);
      assert IdChange(ss[j - 1], ss[j]);
      NotMadeAgain(s0, ss[j - 1].scanSeq + 1, g);
    }
  }

  /** Once no row has a group id that was in use, no row ever has it again. */
  lemma IdsAreNeverReused(ss: seq<Source>, es: seq<Event>, i: nat, j: nat, g: Str)
    requires Run(ss, es) && GroupsOk(ss[0]) && i < j < |ss|
    requires InUse(ss[i], g) && !InUse(ss[i + 1], g)
    ensures !InUse(ss[j], g)
  {
    RunKeepsGroups(ss, es, i);
    StepIsIdChange(ss[i], es[i], ss[i + 1]);
    var rest := ss[i + 1..];
    forall k | 0 < k < |rest| ensures IdChange(rest[k - 1], rest[k]) {
      StepIsIdChange(ss[i + k], es[i + k], ss[i + k + 1]);
    }
    NeverAgain(rest, ss[i], g, j - i - 1);
  }

  // ---- Statistics ----

  lemma GroupsOkUniform(s: Source)
    requires GroupsOk(s)
    ensures UniformGroups(s.rows)
  {
  }

  /** The statistics a finished scan of any kind stores, in any run: UniqueBytes counts each inode once. */
  lemma StoredStats(ss: seq<Source>, es: seq<Event>, i: nat)
    requires Run(ss, es) && GroupsOk(ss[0]) && i < |es| && ss[i + 1].scanSeq > ss[i].scanSeq
    ensures var s' := ss[i + 1];
      && s'.stats.files == |LiveSet(s'.rows)| && s'.stats.bytes == Sum(s'.rows, LiveSet(s'.rows))
      && s'.stats.uniqueBytes ==
        Sum(s'.rows, LiveSet(s'.rows) - Grouped(s'.rows)) + OnePerGroup(s'.rows, GroupIds(s'.rows))
      && 0 <= s'.stats.uniqueBytes <= s'.stats.bytes
      && s'.stats.hardlinkedFiles == |Grouped(s'.rows)| && s'.stats.hardlinkGroups == |GroupIds(s'.rows)|
  {
    RunKeepsGroups(ss, es, i + 1);
    GroupsOkUniform(ss[i + 1]);
    UniqueBytesCountsEachInodeOnce(ss[i + 1].rows, ss[i + 1].stats.skipped);
    assert Step(ss[i], es[i], ss[i + 1]);
  }
}
