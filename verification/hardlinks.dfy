/** Which files a scan groups as names of one inode: exactly those whose metadata agree and that are no more than
    their link count. */
module Hardlinks {
  import opened Wrappers
  import opened Bytes
  import opened Paths
  import opened Tree
  import opened Groups
  import opened Catalog
  import opened FullScan

  // ---- The planned groups ----

  /** g are the files of ws with one inode and a link count of 2 or more, in path order; their metadata agree, and
      they are no more than their link count. */
  ghost predicate NamesIn(ws: seq<Walked>, g: Group) {
    && 2 <= |g| <= g[0].m.nlink && SortedBy(RelOf, g) && (forall w :: w in g ==> w.m == g[0].m)
    && forall w: Walked :: w.m.nlink >= 2 && w.m.Key() == g[0].m.Key() ==> (w in g <==> w in ws)
  }

  /** The same of the files the walk reaches. */
  ghost predicate NamesOneFile(r: Rules, root: Node, g: Group) {
    && 2 <= |g| <= g[0].m.nlink && SortedBy(RelOf, g) && (forall w :: w in g ==> w.m == g[0].m)
    && forall w: Walked :: w.m.nlink >= 2 && w.m.Key() == g[0].m.Key() ==>
      (w in g <==> FileAt(r, root, w.rel) == Some(w.m))
  }

  lemma PlannedIsNames(ws: seq<Walked>, g: Group)
    requires DistinctBy(RelOf, ws) && g in Plan(LinksOf(ws))
    ensures NamesIn(ws, g)
  {
    var k := BucketOf(ws, LinksOf(ws).Keys, g);
    var cands := CandsAt(ws, k);
    CandsDistinct(ws, k);
    SortSorted(RelOf, cands);
    assert g[0] in cands && cands[0] in cands;
  }

  lemma NamesArePlanned(ws: seq<Walked>, g: Group)
    requires DistinctBy(RelOf, ws) && NamesIn(ws, g)
    ensures g in Plan(LinksOf(ws))
  {
    var k := g[0].m.Key();
    var cands := CandsAt(ws, k);
    CandsDistinct(ws, k);
    SortSorted(RelOf, cands);
    assert g[0] in g;
    forall w ensures w in g <==> w in Sort(RelOf, cands) {
    }
    SortedUnique(RelOf, g, Sort(RelOf, cands));
    assert cands[0] in cands;
    LinksOfAt(ws, k);
    assert k in LinksOf(ws) && Groupable(LinksOf(ws)[k]);
  }

  lemma PlannedIff(r: Rules, root: Node, g: Group)
    requires WellFormed(root) && Enterable(root) && WalkDir(r, root, ROOT).Seen?
    ensures g in Plan(LinksOf(WalkDir(r, root, ROOT).files)) <==> NamesOneFile(r, root, g)
  {
    var ws := WalkDir(r, root, ROOT).files;
    WalkFilesDistinct(r, root);
    forall w: Walked ensures w in ws <==> FileAt(r, root, w.rel) == Some(w.m) {
      WalkExact(r, root, w.rel);
      assert w == Walked(w.rel, w.m);
    }
    if g in Plan(LinksOf(ws)) { PlannedIsNames(ws, g); }
    if NamesOneFile(r, root, g) { NamesArePlanned(ws, g); }
  }

  // ---- The stored groups ----

  lemma {:induction false} ConfirmedIff(confirm: Confirm, groups: seq<Group>, g: Group)
    requires ConfirmAll(confirm, groups).Some?
    ensures g in ConfirmAll(confirm, groups).value <==> g in groups && confirm(g) == Some(true)
  {
    if groups != [] {
      var n := |groups| - 1;
      ConfirmedIff(confirm, groups[..n], g);
      assert groups == groups[..n] + [groups[n]];
    }
  }

  lemma {:induction false} ConfirmedDistinct(confirm: Confirm, groups: seq<Group>)
    requires ConfirmAll(confirm, groups).Some? && DistinctBy(FirstRel, groups)
    ensures DistinctBy(FirstRel, ConfirmAll(confirm, groups).value)
  {
    if groups != [] {
      var n := |groups| - 1;
      ConfirmedDistinct(confirm, groups[..n]);
      ConfirmedAreGroups(confirm, groups[..n]);
      forall g | g in ConfirmAll(confirm, groups[..n]).value ensures FirstRel(g) != FirstRel(groups[n]) {
        assert g in groups[..n];
      }
    }
  }

  /** groups are what a scan that saw ws stores. */
  ghost predicate Stored(ws: seq<Walked>, confirm: Confirm, groups: seq<Group>) {
    DistinctBy(RelOf, ws) && ConfirmAll(confirm, Plan(LinksOf(ws))) == Some(groups)
  }

  /** g is stored as a group. */
  ghost predicate Kept(ws: seq<Walked>, confirm: Confirm, g: Group) {
    NamesIn(ws, g) && confirm(g) == Some(true)
  }

  lemma StoredIff(ws: seq<Walked>, confirm: Confirm, groups: seq<Group>, g: Group)
    requires Stored(ws, confirm, groups)
    ensures g in groups <==> Kept(ws, confirm, g)
  {
    ConfirmedIff(confirm, Plan(LinksOf(ws)), g);
    if g in Plan(LinksOf(ws)) { PlannedIsNames(ws, g); }
    if NamesIn(ws, g) { NamesArePlanned(ws, g); }
  }

  lemma StoredDistinct(ws: seq<Walked>, confirm: Confirm, groups: seq<Group>, i: nat, j: nat)
    requires Stored(ws, confirm, groups) && i < |groups| && j < |groups| && groups[i] == groups[j]
    ensures i == j
  {
    PlanSorted(ws);
    SortedIsDistinct(FirstRel, Plan(LinksOf(ws)));
    ConfirmedDistinct(confirm, Plan(LinksOf(ws)));
    assert FirstRel(groups[i]) == FirstRel(groups[j]);
  }

  /** A path is a name of one inode only. */
  lemma OneGroup(ws: seq<Walked>, g: Group, h: Group, p: Str)
    requires DistinctBy(RelOf, ws) && NamesIn(ws, g) && NamesIn(ws, h) && Mentions(g, p) && Mentions(h, p)
    ensures g == h
  {
    var v :| v in g && v.rel == p;
    var w :| w in h && w.rel == p;
    assert v in ws && w in ws;
    SameRel(ws, v, w);
    SortedUnique(RelOf, g, h);
  }

  /** Two paths are in one group exactly when a stored group names both; with p == q, when p has a group. */
  lemma SameGroupIff(ws: seq<Walked>, confirm: Confirm, groups: seq<Group>, id: nat, seqNo: nat, p: Str, q: Str)
    requires Stored(ws, confirm, groups)
    ensures GidAt(groups, id, seqNo, p).Some? && GidAt(groups, id, seqNo, p) == GidAt(groups, id, seqNo, q) <==>
      exists g :: Kept(ws, confirm, g) && Mentions(g, p) && Mentions(g, q)
  {
    var i, j := GroupAt(groups, p), GroupAt(groups, q);
    if exists g :: Kept(ws, confirm, g) && Mentions(g, p) && Mentions(g, q) {
      var g :| Kept(ws, confirm, g) && Mentions(g, p) && Mentions(g, q);
      StoredIff(ws, confirm, groups, g);
      assert i.Some? && j.Some?;
      assert groups[i.value] in groups && groups[j.value] in groups;
      StoredIff(ws, confirm, groups, groups[i.value]);
      StoredIff(ws, confirm, groups, groups[j.value]);
      OneGroup(ws, g, groups[i.value], p);
      OneGroup(ws, g, groups[j.value], q);
      StoredDistinct(ws, confirm, groups, i.value, j.value);
    }
    if i.Some? && j.Some? && GidAt(groups, id, seqNo, p) == GidAt(groups, id, seqNo, q) {
      GroupIdInjective(id, seqNo, i.value + 1, id, seqNo, j.value + 1);
      assert groups[i.value] in groups;
      StoredIff(ws, confirm, groups, groups[i.value]);
    }
  }

  // ---- After a full scan ----

  ghost predicate SameGroup(rows: Rows, p: Str, q: Str) {
    p in rows && q in rows && rows[p].group.Some? && rows[p].group == rows[q].group
  }

  /** The walk reaches p and q as names of one file, and the check of its names keeps them. */
  ghost predicate OneFile(r: Rules, root: Node, confirm: Confirm, p: Str, q: Str) {
    exists g :: NamesOneFile(r, root, g) && confirm(g) == Some(true) && Mentions(g, p) && Mentions(g, q)
  }

  /** The groups of a full scan are its own: a row has the group id its path has in this scan. */
  lemma GroupAfterFull(s: Source, r: Rules, root: Node, confirm: Confirm, stamp: Stamp, p: Str)
    requires WellFormed(root) && Scan(s, r, root, confirm, stamp).Some?
    ensures var rows, groups := Scan(s, r, root, confirm, stamp).value.rows, Look(s, r, root, confirm).value.1;
      && (p in rows ==> rows[p].group == GidAt(groups, s.id, s.scanSeq + 1, p))
      && (GidAt(groups, s.id, s.scanSeq + 1, p).Some? ==> p in rows)
  {
    LookIsExact(s, r, root, confirm);
    var (w, groups) := Look(s, r, root, confirm).value;
    ConfirmedAreGroups(confirm, Plan(LinksOf(w.files)));
    FinishFullAt(s, w, groups, stamp, p);
    GroupsMentionCandidates(w.files, groups, p);
  }

  /** After a full scan two rows have one group if and only if the walk reached them as names of one file: all
      reached names of the inode agree in their metadata and are no more than its link count. */
  lemma GroupedIff(s: Source, r: Rules, root: Node, confirm: Confirm, stamp: Stamp, p: Str, q: Str)
    requires WellFormed(root) && Scan(s, r, root, confirm, stamp).Some?
    ensures SameGroup(Scan(s, r, root, confirm, stamp).value.rows, p, q) <==> OneFile(r, root, confirm, p, q)
  {
    LookIsExact(s, r, root, confirm);
    var (w, groups) := Look(s, r, root, confirm).value;
    GroupAfterFull(s, r, root, confirm, stamp, p);
    GroupAfterFull(s, r, root, confirm, stamp, q);
    SameGroupIff(w.files, confirm, groups, s.id, s.scanSeq + 1, p, q);
    forall g ensures NamesIn(w.files, g) <==> NamesOneFile(r, root, g) {
      PlannedIff(r, root, g);
      if NamesIn(w.files, g) { NamesArePlanned(w.files, g); }
      if g in Plan(LinksOf(w.files)) { PlannedIsNames(w.files, g); }
    }
  }

  function NamedBy(m: Meta): Str -> Walked {
    p => Walked(p, m)
  }

  /** The names of one inode as the list that is stored. */
  ghost function NameList(names: set<Str>, m: Meta): Group {
    var f := NamedBy(m);
    SortSet(RelOf, set p | p in names :: f(p))
  }

  lemma NameListIs(names: set<Str>, m: Meta)
    ensures var g := NameList(names, m);
      |g| == |names| && SortedBy(RelOf, g) && forall w :: w in g <==> w.rel in names && w.m == m
  {
    var g, f := NameList(names, m), NamedBy(m);
    var all := set p | p in names :: f(p);
    SortSetSorted(RelOf, all);
    forall w ensures w in g <==> w.rel in names && w.m == m {
      if w.rel in names && w.m == m { assert w == f(w.rel) && f(w.rel) in all; }
    }
    SortedIsDistinct(RelOf, g);
    SameSize(g, names, m);
  }

  lemma {:induction false} SameSize(g: Group, names: set<Str>, m: Meta)
    requires DistinctBy(RelOf, g) && forall w :: w in g <==> w.rel in names && w.m == m
    ensures |g| == |names|
  {
    if names != {} {
      var p :| p in names;
      assert Walked(p, m) in g;
    }
    if g != [] {
      var n := |g| - 1;
      assert g == g[..n] + [g[n]];
      assert g[n] in g;
      forall w ensures w in g[..n] <==> w.rel in names - {g[n].rel} && w.m == m {
        if w.rel in names - {g[n].rel} && w.m == m { assert w in g && w != g[n]; }
      }
      SameSize(g[..n], names - {g[n].rel}, m);
    }
  }

  /** The reached names of one inode agree and are no more than its link count. */
  ghost predicate AllNames(r: Rules, root: Node, names: set<Str>, m: Meta) {
    && (forall p :: p in names <==> FileAt(r, root, p) == Some(m))
    && (forall p :: FileAt(r, root, p).Some? && FileAt(r, root, p).value.Key() == m.Key() ==> p in names)
    && 2 <= |names| <= m.nlink
  }

  lemma AllNamesAreOneFile(r: Rules, root: Node, names: set<Str>, m: Meta)
    requires AllNames(r, root, names, m)
    ensures NamesOneFile(r, root, NameList(names, m))
    ensures forall p :: Mentions(NameList(names, m), p) <==> p in names
  {
    var g := NameList(names, m);
    NameListIs(names, m);
    assert g[0] in g;
    forall p ensures Mentions(g, p) <==> p in names {
      if p in names { assert Walked(p, m) in g; }
    }
  }

  lemma OneFileIff(r: Rules, root: Node, confirm: Confirm, names: set<Str>, m: Meta, p: Str, q: Str)
    requires AllNames(r, root, names, m) && confirm(NameList(names, m)) == Some(true) && p in names
    ensures OneFile(r, root, confirm, p, q) <==> q in names
  {
    var g := NameList(names, m);
    AllNamesAreOneFile(r, root, names, m);
    if OneFile(r, root, confirm, p, q) {
      var h: Group :| NamesOneFile(r, root, h) && Mentions(h, p) && Mentions(h, q);
      assert Mentions(h, p) && Mentions(h, q);
      var v :| v in h && v.rel == p;
      var w :| w in h && w.rel == q;
      assert FileAt(r, root, v.rel) == Some(v.m) && FileAt(r, root, w.rel) == Some(w.m);
    }
  }

  /** The reached names of one inode, when they agree and are no more than its link count, have one group of their
      own after every full scan whose check keeps it. */
  lemma HardlinksAreGrouped(s: Source, r: Rules, root: Node, confirm: Confirm, stamp: Stamp, names: set<Str>, m: Meta)
    requires WellFormed(root) && Scan(s, r, root, confirm, stamp).Some?
    requires AllNames(r, root, names, m) && confirm(NameList(names, m)) == Some(true)
    ensures var rows := Scan(s, r, root, confirm, stamp).value.rows;
      forall p, q :: p in names ==> (SameGroup(rows, p, q) <==> q in names)
  {
    forall p, q | p in names
      ensures SameGroup(Scan(s, r, root, confirm, stamp).value.rows, p, q) <==> q in names
    {
      GroupedIff(s, r, root, confirm, stamp, p, q);
      OneFileIff(r, root, confirm, names, m, p, q);
    }
  }
}
