/** A targeted scan agrees with the full scan of the same tree. */
module Refinement {
  import opened Wrappers
  import opened Bytes
  import opened Paths
  import opened Tree
  import opened Groups
  import opened Catalog
  import opened FullScan
  import opened Hardlinks
  import opened Targets

  // ---- One target, against what the full walk reaches ----

  /** A current target's walk says about every path under it what the full walk says. */
  lemma {:induction false} VisitFromAgrees(rows: Rows, r: Rules, d: Node, rel: Str, cs: seq<Str>, t: Str, ds: seq<Str>)
    requires WellFormed(d) && Enterable(d) && |cs| >= 1 && t == Pre(rel) + Join(cs)
    requires |cs| <= |ds| && ds[..|cs|] == cs && forall k :: 0 <= k < |ds| ==> NoSlash(ds[k])
    requires VisitFrom(rows, r, d, rel, cs, t).Some? &&
      Target(t, VisitFrom(rows, r, d, rel, cs, t).value.state).Current()
    ensures Agrees(VisitFrom(rows, r, d, rel, cs, t).value.walk, Pre(rel) + Join(ds), Reach(r, d, rel, ds))
    decreases |cs|
  {
    var name := cs[0];
    TailPrefix(cs, ds);
    if Find(d.entries, name).Some? {
      var n := Find(d.entries, name).value;
      FoundIsWellFormed(d.entries, name);
      if |cs| == 1 {
        LeafAgrees(rows, r, d, rel, name, ds);
      } else {
        var child := JoinRel(rel, name);
        JoinRelIsNotRoot(rel, name);
        DeeperName(rel, cs);
        DeeperName(rel, ds);
        VisitFromAgrees(rows, r, n, child, cs[1..], t, ds[1..]);
      }
    }
  }

  lemma DeeperName(rel: Str, cs: seq<Str>)
    requires 1 < |cs| && JoinRel(rel, cs[0]) != ROOT
    ensures Pre(rel) + Join(cs) == Pre(JoinRel(rel, cs[0])) + Join(cs[1..])
  {
    var q, c, j := Pre(rel), cs[0], Join(cs[1..]);
    Associative(q, c + [SLASH], j);
    Associative(q, c, [SLASH]);
  }

  lemma TailPrefix(cs: seq<Str>, ds: seq<Str>)
    requires 1 <= |cs| <= |ds| && ds[..|cs|] == cs
    ensures ds[0] == cs[0] && ds[1..][..|cs[1..]|] == cs[1..]
  {
    assert ds[0] == ds[..|cs|][0];
    assert ds[1..][..|cs| - 1] == ds[..|cs|][1..];
  }

  lemma LeafAgrees(rows: Rows, r: Rules, d: Node, rel: Str, name: Str, ds: seq<Str>)
    requires Enterable(d) && Find(d.entries, name).Some? && WellFormed(Find(d.entries, name).value) && NormalName(name)
    requires |ds| >= 1 && ds[0] == name && forall k :: 0 <= k < |ds| ==> NoSlash(ds[k])
    requires
      var v := VisitLeaf(rows, r, d, rel, name, JoinRel(rel, name));
      v.Some? && (v.value.state.Scanned? || v.value.state.GoneAway?)
    ensures Agrees(VisitLeaf(rows, r, d, rel, name, JoinRel(rel, name)).value.walk, Pre(rel) + Join(ds),
      Reach(r, d, rel, ds))
  {
    var n := Find(d.entries, name).value;
    var e := Entry(name, n);
    assert Find([e], name) == Some(n);
    assert ReachIn(r, d.entries, rel, ds) == ReachIn(r, [e], rel, ds);
    EntryExact(r, e, rel, ds);
    if n.Dir? { assert WalkEntry(r, e, rel) == EnterDir(r, n, JoinRel(rel, name), name); }
  }

  /** Everything a target's walk saw lies under the target. */
  lemma {:induction false} VisitFromUnder(rows: Rows, r: Rules, d: Node, rel: Str, cs: seq<Str>, t: Str)
    requires WellFormed(d) && d.Dir? && |cs| >= 1 && t == Pre(rel) + Join(cs)
    requires VisitFrom(rows, r, d, rel, cs, t).Some?
    ensures var v := VisitFrom(rows, r, d, rel, cs, t).value;
      v.walk.Seen? && AllUnder(v.walk, t) && (v.walk.files != [] ==> Target(t, v.state).Current())
    decreases |cs|
  {
    var name := cs[0];
    if Find(d.entries, name).Some? {
      var n := Find(d.entries, name).value;
      FoundIsWellFormed(d.entries, name);
      JoinRelIsNotRoot(rel, name);
      if |cs| == 1 {
        var e := Entry(name, n);
        EntryUnder(r, e, rel);
        if n.Dir? {
          assert WalkEntry(r, e, rel) == EnterDir(r, n, t, name);
          WalkEntryOfDir(r, e, rel);
          if Enterable(n) { EntriesInside(r, n.entries, t); }
        }
      } else if n.Dir? {
        var child := JoinRel(rel, name);
        assert t == Pre(child) + Join(cs[1..]);
        if VisitFrom(rows, r, d, rel, cs, t) != DROP {
          VisitFromUnder(rows, r, n, child, cs[1..], t);
        }
      }
    }
  }

  /** The folders above a current target are readable. */
  lemma {:induction false} FoldersAboveReadable(rows: Rows, r: Rules, d: Node, rel: Str, cs: seq<Str>, t: Str, k: nat)
    requires d.Dir? && 1 <= k < |cs|
    requires VisitFrom(rows, r, d, rel, cs, t).Some? &&
      Target(t, VisitFrom(rows, r, d, rel, cs, t).value.state).Current()
    ensures Reach(r, d, rel, cs[..k]).Some? ==> !Unreadable(Reach(r, d, rel, cs[..k]).value)
    decreases |cs|
  {
    var n := Find(d.entries, cs[0]);
    if k > 1 && n.Some? && n.value.Dir? {
      FoldersAboveReadable(rows, r, n.value, JoinRel(rel, cs[0]), cs[1..], t, k - 1);
      assert cs[..k][1..] == cs[1..][..k - 1];
    }
  }

  // ---- The same, by paths ----

  ghost predicate VisitsCurrent(rows: Rows, r: Rules, root: Node, t: Str)
    requires root.Dir?
  {
    var v := VisitTarget(rows, r, root, t);
    v.Some? && Target(t, v.value.state).Current()
  }

  lemma VisitUnder(rows: Rows, r: Rules, root: Node, t: Str)
    requires WellFormed(root) && root.Dir? && VisitTarget(rows, r, root, t).Some?
    ensures var v := VisitTarget(rows, r, root, t).value;
      v.walk.Seen? && AllUnder(v.walk, t) && (v.walk.files != [] ==> Target(t, v.state).Current())
  {
    assert t == Pre(ROOT) + Join(Split(t));
    if Blocked(root).None? { VisitFromUnder(rows, r, root, ROOT, Split(t), t); }
  }

  lemma VisitAgrees(rows: Rows, r: Rules, root: Node, t: Str, p: Str)
    requires WellFormed(root) && root.Dir? && VisitsCurrent(rows, r, root, t) && Under(p, t)
    ensures Enterable(root)
    ensures Agrees(VisitTarget(rows, r, root, t).value.walk, p, Reach(r, root, ROOT, Split(p)))
  {
    if p != t { SplitInside(p, t); } else { assert Split(p)[..|Split(t)|] == Split(t); }
    assert t == Pre(ROOT) + Join(Split(t)) && p == Pre(ROOT) + Join(Split(p));
    VisitFromAgrees(rows, r, root, ROOT, Split(t), t, Split(p));
  }

  lemma AboveTargetReadable(rows: Rows, r: Rules, root: Node, t: Str, d: Str)
    requires WellFormed(root) && root.Dir? && VisitsCurrent(rows, r, root, t) && Inside(t, d)
    ensures Reach(r, root, ROOT, Split(d)).Some? ==> !Unreadable(Reach(r, root, ROOT, Split(d)).value)
  {
    SplitInside(t, d);
    FoldersAboveReadable(rows, r, root, ROOT, Split(t), t, |Split(d)|);
  }

  /** Under a current target, the paths its walk hides are the paths the full walk hides. */
  lemma VisitHides(rows: Rows, r: Rules, root: Node, t: Str, p: Str)
    requires WellFormed(root) && root.Dir? && VisitsCurrent(rows, r, root, t) && Under(p, t)
    ensures var w := VisitTarget(rows, r, root, t).value.walk;
      w.Seen? && (UnderUnreadable(p, w.unreadable) <==> Hidden(r, root, p))
  {
    VisitUnder(rows, r, root, t);
    var w := VisitTarget(rows, r, root, t).value.walk;
    if UnderUnreadable(p, w.unreadable) {
      var d :| d in w.unreadable && Inside(p, d);
      VisitAgrees(rows, r, root, t, d);
    }
    if Hidden(r, root, p) {
      var d :| Inside(p, d) && Reach(r, root, ROOT, Split(d)).Some? && Unreadable(Reach(r, root, ROOT, Split(d)).value);
      if |t| <= |d| {
        UnderComparable(p, t, d);
        VisitAgrees(rows, r, root, t, d);
        assert d in w.unreadable;
      } else {
        UnderComparable(p, d, t);
        AboveTargetReadable(rows, r, root, t, d);
      }
    }
  }

  // ---- All targets together ----

  /** What the walks of all targets say about a path under one current target is what that target's
      walk says. */
  lemma {:induction false} VisitAllAt(rows: Rows, r: Rules, root: Node, ts: seq<Str>, t: Str, p: Str)
    requires WellFormed(root) && root.Dir? && VisitAll(rows, r, root, ts).Some?
    requires Antichain(ts) && (forall i, j :: 0 <= i < j < |ts| ==> ts[i] != ts[j]) && t in ts && Under(p, t)
    ensures var w, v := VisitAll(rows, r, root, ts).value.1, VisitTarget(rows, r, root, t);
      && v.Some? && v.value.walk.Seen? && w.Seen?
      && (forall m :: Walked(p, m) in w.files <==> Walked(p, m) in v.value.walk.files)
      && (forall d :: Under(d, t) ==> (d in w.unreadable <==> d in v.value.walk.unreadable))
  {
    var n := |ts| - 1;
    var last := ts[n];
    VisitUnder(rows, r, root, last);
    VisitAllUnder(rows, r, root, ts[..n]);
    if last == t {
      forall u | u in ts[..n] ensures u != t && !Inside(t, u) && !Inside(u, t) {}
      NothingUnderOthers(rows, r, root, ts[..n], t);
    } else {
      assert t in ts[..n];
      VisitAllAt(rows, r, root, ts[..n], t, p);
      forall d | Under(d, t) ensures !Under(d, last) { DisjointTargets(d, t, last); }
    }
  }

  lemma {:induction false} VisitAllOut(rows: Rows, r: Rules, root: Node, ts: seq<Str>, i: nat)
    requires root.Dir? && VisitAll(rows, r, root, ts).Some? && i < |ts|
    ensures var out := VisitAll(rows, r, root, ts).value.0;
      && |out| == |ts| && VisitTarget(rows, r, root, ts[i]).Some?
      && out[i] == Target(ts[i], VisitTarget(rows, r, root, ts[i]).value.state)
  {
    var n := |ts| - 1;
    if i < n { VisitAllOut(rows, r, root, ts[..n], i); }
    else if n > 0 { VisitAllOut(rows, r, root, ts[..n], 0); }
  }

  lemma UnderAnyMore(x: Str, ts: seq<Str>, us: seq<Str>)
    requires forall t :: t in ts ==> t in us
    ensures UnderAny(x, ts) ==> UnderAny(x, us)
  {
    if UnderAny(x, ts) {
      var t :| t in ts && Under(x, t);
      assert t in us;
    }
  }

  lemma {:induction false} VisitAllUnder(rows: Rows, r: Rules, root: Node, ts: seq<Str>)
    requires WellFormed(root) && root.Dir? && VisitAll(rows, r, root, ts).Some?
    ensures var (out, w) := VisitAll(rows, r, root, ts).value;
      && w.Seen?
      && (forall f :: f in w.files ==> UnderAny(f.rel, Scopes(out)) && UnderAny(f.rel, ts))
      && (forall u :: u in w.unreadable ==> UnderAny(u, ts))
  {
    if ts != [] {
      var n := |ts| - 1;
      VisitAllUnder(rows, r, root, ts[..n]);
      VisitUnder(rows, r, root, ts[n]);
      var v := VisitTarget(rows, r, root, ts[n]).value;
      var (out, w) := VisitAll(rows, r, root, ts).value;
      var (out0, w0) := VisitAll(rows, r, root, ts[..n]).value;
      assert out == out0 + [Target(ts[n], v.state)];
      forall x ensures UnderAny(x, ts[..n]) ==> UnderAny(x, ts) { UnderAnyMore(x, ts[..n], ts); }
      forall x
        ensures UnderAny(x, Scopes(out0)) ==> UnderAny(x, Scopes(out))
      {
        UnderAnyMore(x, Scopes(out0), Scopes(out));
      }
      assert ts[n] in ts;
    }
  }

  lemma NothingUnderOthers(rows: Rows, r: Rules, root: Node, ts: seq<Str>, t: Str)
    requires WellFormed(root) && root.Dir? && VisitAll(rows, r, root, ts).Some?
    requires forall u :: u in ts ==> u != t && !Inside(t, u) && !Inside(u, t)
    ensures var w := VisitAll(rows, r, root, ts).value.1;
      w.Seen? && (forall f :: f in w.files ==> !Under(f.rel, t)) && (forall d :: d in w.unreadable ==> !Under(d, t))
  {
    VisitAllUnder(rows, r, root, ts);
    forall x | Under(x, t) ensures !UnderAny(x, ts) {
      forall u | u in ts ensures !Under(x, u) { DisjointTargets(x, t, u); }
    }
  }

  lemma {:induction false} VisitFromDistinct(rows: Rows, r: Rules, d: Node, rel: Str, cs: seq<Str>, t: Str)
    requires WellFormed(d) && d.Dir? && |cs| >= 1 && t == Pre(rel) + Join(cs)
    requires VisitFrom(rows, r, d, rel, cs, t).Some? && VisitFrom(rows, r, d, rel, cs, t).value.walk.Seen?
    ensures DistinctBy(RelOf, VisitFrom(rows, r, d, rel, cs, t).value.walk.files)
    decreases |cs|
  {
    if Find(d.entries, cs[0]).Some? {
      var n := Find(d.entries, cs[0]).value;
      FoundIsWellFormed(d.entries, cs[0]);
      JoinRelIsNotRoot(rel, cs[0]);
      if |cs| == 1 {
        if n.Dir? {
          assert WalkEntry(r, Entry(cs[0], n), rel) == EnterDir(r, n, t, cs[0]);
          EntryFilesDistinct(r, Entry(cs[0], n), rel);
        }
      } else if n.Dir? && VisitFrom(rows, r, d, rel, cs, t) != DROP {
        DeeperName(rel, cs);
        VisitFromDistinct(rows, r, n, JoinRel(rel, cs[0]), cs[1..], t);
      }
    }
  }

  lemma VisitDistinct(rows: Rows, r: Rules, root: Node, t: Str)
    requires WellFormed(root) && root.Dir? && VisitTarget(rows, r, root, t).Some?
    requires VisitTarget(rows, r, root, t).value.walk.Seen?
    ensures DistinctBy(RelOf, VisitTarget(rows, r, root, t).value.walk.files)
  {
    assert t == Pre(ROOT) + Join(Split(t));
    if Blocked(root).None? { VisitFromDistinct(rows, r, root, ROOT, Split(t), t); }
  }

  ghost predicate TargetList(ts: seq<Str>) {
    Antichain(ts) && forall i, j :: 0 <= i < j < |ts| ==> ts[i] != ts[j]
  }

  lemma {:induction false} VisitAllDistinct(rows: Rows, r: Rules, root: Node, ts: seq<Str>)
    requires WellFormed(root) && root.Dir? && VisitAll(rows, r, root, ts).Some? && TargetList(ts)
    ensures var w := VisitAll(rows, r, root, ts).value.1; w.Seen? && DistinctBy(RelOf, w.files)
  {
    if ts != [] {
      var n := |ts| - 1;
      VisitAllDistinct(rows, r, root, ts[..n]);
      VisitUnder(rows, r, root, ts[n]);
      VisitDistinct(rows, r, root, ts[n]);
      forall u | u in ts[..n] ensures u != ts[n] && !Inside(ts[n], u) && !Inside(u, ts[n]) {
        assert u in ts && ts[n] in ts;
      }
      NothingUnderOthers(rows, r, root, ts[..n], ts[n]);
    }
  }

  // ---- The partners ----

  lemma {:induction false} LstatReaches(r: Rules, d: Node, rel: Str, cs: seq<Str>)
    requires Enterable(d) && |cs| >= 1 && LstatFrom(r, d, rel, cs).IsFile?
    ensures Reach(r, d, rel, cs) == Some(File(LstatFrom(r, d, rel, cs).m))
    decreases |cs|
  {
    var n := Find(d.entries, cs[0]).value;
    if n.Dir? { LstatReaches(r, n, JoinRel(rel, cs[0]), cs[1..]); }
  }

  /** A nominated partner: a live row outside the scanned targets whose file the full walk reaches,
      with the metadata of a candidate. */
  ghost predicate IsPartner(rows: Rows, scopes: seq<Str>, r: Rules, root: Node, ks: set<DevIno>, w: Walked) {
    && Live(rows, w.rel) && rows[w.rel].m.Key() == w.m.Key() && w.m.Key() in ks && w.m.nlink >= 2
    && !UnderAny(w.rel, scopes)
    && FileAt(r, root, w.rel) == Some(w.m)
  }

  lemma {:induction false} PartnersAmongAre(rows: Rows, scopes: seq<Str>, r: Rules, root: Node, cands: seq<Walked>,
      rels: seq<Str>, k: DevIno)
    requires root.Dir? && cands != [] && cands[0].m.Key() == k && cands[0].m.nlink >= 2
    requires forall p :: p in rels ==> Live(rows, p) && rows[p].m.Key() == k
    requires DistinctBy(Self, rels)
    requires PartnersAmong(scopes, r, root, cands, rels).Some?
    ensures var ps := PartnersAmong(scopes, r, root, cands, rels).value;
      && (forall w :: w in ps ==> IsPartner(rows, scopes, r, root, {k}, w) && w.rel in rels)
      && DistinctBy(RelOf, ps)
  {
    if rels != [] {
      var n := |rels| - 1;
      PartnersAmongAre(rows, scopes, r, root, cands, rels[..n], k);
      assert rels[n] in rels;
      if LstatPartner(r, root, rels[n]).IsFile? { LstatReaches(r, root, ROOT, Split(rels[n])); }
    }
  }

  lemma RelsWithInodeAre(rows: Rows, k: DevIno)
    ensures forall p :: p in RelsWithInode(rows, k) <==> Live(rows, p) && rows[p].m.Key() == k
    ensures DistinctBy(Self, RelsWithInode(rows, k))
  {
    var s := set p | p in rows && Live(rows, p) && rows[p].m.Key() == k;
    SortSetSorted(Self, s);
    var q := RelsWithInode(rows, k);
    SortedIsDistinct(Self, q);
  }

  lemma {:induction false} NominatedAre(rows: Rows, scopes: seq<Str>, r: Rules, root: Node, ws: seq<Walked>,
      ks: set<DevIno>)
    requires root.Dir? && ks <= LinksOf(ws).Keys && forall k :: k in LinksOf(ws) ==> LinksOf(ws)[k] != []
    requires Nominate(rows, scopes, r, root, LinksOf(ws), ks).Some?
    ensures var ps := Nominate(rows, scopes, r, root, LinksOf(ws), ks).value;
      && (forall w :: w in ps ==> IsPartner(rows, scopes, r, root, ks, w))
      && DistinctBy(RelOf, ps)
  {
    if ks != {} {
      var k := FirstKey(ks);
      var links := LinksOf(ws);
      LinksOfAt(ws, k);
      assert links[k][0] in CandsAt(ws, k);
      RelsWithInodeAre(rows, k);
      PartnersAmongAre(rows, scopes, r, root, links[k], RelsWithInode(rows, k), k);
      NominatedAre(rows, scopes, r, root, ws, ks - {k});
      var a := PartnersAmong(scopes, r, root, links[k], RelsWithInode(rows, k)).value;
      var b := Nominate(rows, scopes, r, root, links, ks - {k}).value;
      forall x, y | x in a && y in b ensures RelOf(x) != RelOf(y) {}
    }
  }

  // ---- What the read-only part of a targeted scan found ----

  lemma SeenIsExact(rows: Rows, r: Rules, root: Node, ts: seq<Str>, out: seq<Target>, w: Walk, partners: seq<Walked>)
    requires WellFormed(root) && TargetList(ts) && root.Dir? && VisitAll(rows, r, root, ts) == Some((out, w)) && w.Seen?
    requires forall k :: k in LinksOf(w.files) ==> LinksOf(w.files)[k] != []
    requires Nominate(rows, Scopes(out), r, root, LinksOf(w.files), LinksOf(w.files).Keys) == Some(partners)
    ensures DistinctBy(RelOf, w.files + partners)
    ensures forall f :: f in w.files ==> UnderAny(f.rel, Scopes(out))
    ensures forall f :: f in partners ==> IsPartner(rows, Scopes(out), r, root, LinksOf(w.files).Keys, f)
  {
    VisitAllUnder(rows, r, root, ts);
    VisitAllDistinct(rows, r, root, ts);
    NominatedAre(rows, Scopes(out), r, root, w.files, LinksOf(w.files).Keys);
    forall x, y | x in w.files && y in partners ensures RelOf(x) != RelOf(y) {}
  }

  lemma FoundIsExact(s: Source, r: Rules, root: Node, confirm: Confirm, ts: seq<Str>)
    requires WellFormed(root) && TargetList(ts) && LookTargets(s, r, root, confirm, ts).Some?
    ensures var f := LookTargets(s, r, root, confirm, ts).value;
      && f.walk.Seen?
      && VisitAll(s.rows, r, root, ts) == Some((f.out, f.walk))
      && DistinctBy(RelOf, f.walk.files + f.partners)
      && (forall w :: w in f.walk.files ==> UnderAny(w.rel, Scopes(f.out)))
      && (forall w :: w in f.partners ==> IsPartner(s.rows, Scopes(f.out), r, root, LinksOf(f.walk.files).Keys, w))
      && (forall g :: g in f.groups ==> g in Plan(LinksOf(f.walk.files + f.partners)))
  {
    var f := LookTargets(s, r, root, confirm, ts).value;
    LinksNonempty(f.walk.files);
    SeenIsExact(s.rows, r, root, ts, f.out, f.walk, f.partners);
    ConfirmedAreGroups(confirm, Plan(LinksOf(f.walk.files + f.partners)));
  }

  lemma MetaAtConcat(a: seq<Walked>, b: seq<Walked>, p: Str)
    requires DistinctBy(RelOf, a + b)
    ensures MetaAt(a + b, p) == if MetaAt(b, p).Some? then MetaAt(b, p) else MetaAt(a, p)
  {
    var ws := a + b;
    if MetaAt(b, p).Some? {
      assert Walked(p, MetaAt(b, p).value) in ws;
      SameRel(ws, Walked(p, MetaAt(b, p).value), Walked(p, MetaAt(ws, p).value));
    } else if MetaAt(a, p).Some? {
      assert Walked(p, MetaAt(a, p).value) in ws;
      SameRel(ws, Walked(p, MetaAt(a, p).value), Walked(p, MetaAt(ws, p).value));
    }
  }

  /** The folders the walks of all targets could not read, seen from a path under one current target. */
  lemma HidingAgrees(rows: Rows, r: Rules, root: Node, ts: seq<Str>, t: Str, p: Str)
    requires WellFormed(root) && root.Dir? && VisitAll(rows, r, root, ts).Some? && TargetList(ts)
    requires t in ts && VisitsCurrent(rows, r, root, t) && Under(p, t)
    ensures var w := VisitAll(rows, r, root, ts).value.1;
      w.Seen? && (UnderUnreadable(p, w.unreadable) <==> Hidden(r, root, p))
  {
    VisitAllAt(rows, r, root, ts, t, p);
    VisitAllUnder(rows, r, root, ts);
    VisitUnder(rows, r, root, t);
    VisitHides(rows, r, root, t, p);
    var all := VisitAll(rows, r, root, ts).value.1.unreadable;
    var own := VisitTarget(rows, r, root, t).value.walk.unreadable;
    if UnderUnreadable(p, own) {
      var d :| d in own && Inside(p, d);
      assert d in all;
    }
    if UnderUnreadable(p, all) {
      var d :| d in all && Inside(p, d);
      var u :| u in ts && Under(d, u);
      UnderTransitive(p, d, u);
      if u != t { DisjointTargets(p, t, u); }
      assert d in own;
    }
  }

  lemma FilesAgree(rows: Rows, r: Rules, root: Node, ts: seq<Str>, t: Str, p: Str)
    requires WellFormed(root) && root.Dir? && VisitAll(rows, r, root, ts).Some? && TargetList(ts)
    requires t in ts && VisitsCurrent(rows, r, root, t) && Under(p, t)
    ensures var w := VisitAll(rows, r, root, ts).value.1; w.Seen? && MetaAt(w.files, p) == FileAt(r, root, p)
  {
    VisitAllAt(rows, r, root, ts, t, p);
    VisitAgrees(rows, r, root, t, p);
    var w := VisitAll(rows, r, root, ts).value.1;
    if MetaAt(w.files, p).Some? { assert Walked(p, MetaAt(w.files, p).value) in w.files; }
    if FileAt(r, root, p).Some? { assert Walked(p, FileAt(r, root, p).value) in w.files; }
  }

  lemma ScopeIsTarget(rows: Rows, r: Rules, root: Node, ts: seq<Str>, t: Str)
    requires root.Dir? && VisitAll(rows, r, root, ts).Some? && t in Scopes(VisitAll(rows, r, root, ts).value.0)
    ensures t in ts && VisitsCurrent(rows, r, root, t)
  {
    var out := VisitAll(rows, r, root, ts).value.0;
    var x :| x in out && x.Current() && x.path == t;
    if ts != [] { VisitAllOut(rows, r, root, ts, 0); }
    var i :| 0 <= i < |out| && out[i] == x;
    VisitAllOut(rows, r, root, ts, i);
  }

  /** Under a target it scanned or found gone, the targeted scan saw the files the full walk reaches
      and hides what the full walk hides. */
  lemma FoundAt(s: Source, r: Rules, root: Node, confirm: Confirm, ts: seq<Str>, f: Found, p: Str)
    requires WellFormed(root) && TargetList(ts) && LookTargets(s, r, root, confirm, ts) == Some(f)
    requires UnderAny(p, Scopes(f.out))
    ensures f.walk.Seen?
    ensures MetaAt(f.walk.files + f.partners, p) == FileAt(r, root, p)
    ensures UnderUnreadable(p, f.walk.unreadable) <==> Hidden(r, root, p)
  {
    FoundIsExact(s, r, root, confirm, ts);
    var t :| t in Scopes(f.out) && Under(p, t);
    ScopeIsTarget(s.rows, r, root, ts, t);
    FilesAgree(s.rows, r, root, ts, t, p);
    HidingAgrees(s.rows, r, root, ts, t, p);
    MetaAtConcat(f.walk.files, f.partners, p);
  }

  // ---- The rows after a targeted scan ----

  /** Which rows a targeted scan takes out of their groups. */
  lemma ClearedTargets(rows: Rows, files: seq<Walked>, partners: seq<Walked>, stamp: Stamp, scope: Str -> bool, p: Str)
    requires forall w :: w in files && w.rel == p ==> scope(p)
    requires DistinctBy(RelOf, files + partners)
    ensures
      var after := Committed(rows, files + partners, stamp);
      MetaAt(files + partners, p).Some? || p in rows ==>
      (p in Cleared(after, scope, partners) <==> MetaAt(files + partners, p).Some? || scope(p))
  {
    CommittedAt(rows, files + partners, stamp, p);
    MetaAtConcat(files, partners, p);
    assert p in RelsOf(partners) <==> MetaAt(partners, p).Some?;
  }

  /** Commit and final transaction of a targeted scan, on the rows. */
  lemma TargetRowsAt(rows: Rows, files: seq<Walked>, partners: seq<Walked>, unreadable: seq<Str>, scopes: seq<Str>,
      groups: seq<Group>, id: nat, seqNo: nat, stamp: Stamp, p: Str)
    requires DistinctBy(RelOf, files + partners) && forall w :: w in files ==> UnderAny(w.rel, scopes)
    ensures
      var after, scope := Committed(rows, files + partners, stamp), InScopesOf(scopes);
      RowAt(Finish(after, stamp, unreadable, scope, Cleared(after, scope, partners), groups, id, seqNo), p) ==
      RowAfter(RowAt(rows, p), MetaAt(files + partners, p), UnderUnreadable(p, unreadable), UnderAny(p, scopes),
        GidAt(groups, id, seqNo, p), stamp)
  {
    var ws, scope := files + partners, InScopesOf(scopes);
    var after := Committed(rows, ws, stamp);
    InScopesIsUnderAny(scopes, p);
    ClearedTargets(rows, files, partners, stamp, scope, p);
    CommitThenFinishAt(rows, ws, stamp, unreadable, scope, Cleared(after, scope, partners), groups, id, seqNo, p);
  }

  lemma FinishTargetsAt(s: Source, f: Found, stamp: Stamp, p: Str, files: seq<Walked>, partners: seq<Walked>,
      unreadable: seq<Str>, scopes: seq<Str>)
    requires f.walk.Seen? && files == f.walk.files && partners == f.partners && unreadable == f.walk.unreadable
    requires scopes == Scopes(f.out)
    requires DistinctBy(RelOf, files + partners) && forall w :: w in files ==> UnderAny(w.rel, scopes)
    ensures RowAt(FinishedTargets(s, Committed(s.rows, files + partners, stamp), f, stamp), p) ==
      RowAfter(RowAt(s.rows, p), MetaAt(files + partners, p), UnderUnreadable(p, unreadable), UnderAny(p, scopes),
        GidAt(f.groups, s.id, s.scanSeq + 1, p), stamp)
  {
    TargetRowsAt(s.rows, files, partners, unreadable, scopes, f.groups, s.id, s.scanSeq + 1, stamp, p);
  }

  /** The row at p after a targeted scan, and where the files it saw are. */
  lemma ScanPathsAt(s: Source, r: Rules, root: Node, confirm: Confirm, ts: seq<Str>, stamp: Stamp, f: Found, p: Str)
    requires WellFormed(root) && TargetList(ts) && LookTargets(s, r, root, confirm, ts) == Some(f) &&
      Scopes(f.out) != []
    ensures f.walk.Seen?
    ensures RowAt(ScanPaths(s, r, root, confirm, ts, stamp).value.1.rows, p)
         == RowAfter(RowAt(s.rows, p), MetaAt(f.walk.files + f.partners, p), UnderUnreadable(p, f.walk.unreadable),
                     UnderAny(p, Scopes(f.out)), GidAt(f.groups, s.id, s.scanSeq + 1, p), stamp)
    ensures MetaAt(f.walk.files + f.partners, p).None? ==> GidAt(f.groups, s.id, s.scanSeq + 1, p).None?
    ensures !UnderAny(p, Scopes(f.out)) && MetaAt(f.walk.files + f.partners, p).Some? ==>
      Walked(p, MetaAt(f.walk.files + f.partners, p).value) in f.partners
  {
    FoundIsExact(s, r, root, confirm, ts);
    FinishTargetsAt(s, f, stamp, p, f.walk.files, f.partners, f.walk.unreadable, Scopes(f.out));
    GroupsMentionCandidates(f.walk.files + f.partners, f.groups, p);
    MetaAtConcat(f.walk.files, f.partners, p);
  }

  /** The live metadata a successful full scan of the tree leaves at p. */
  ghost function ExactMeta(s: Source, r: Rules, root: Node, p: Str): Option<Meta> {
    if FileAt(r, root, p).Some? then FileAt(r, root, p)
    else if Live(s.rows, p) && Hidden(r, root, p) then Some(s.rows[p].m)
    else None
  }

  lemma FullIsExact(s: Source, r: Rules, root: Node, confirm: Confirm, stamp: Stamp, p: Str)
    requires WellFormed(root) && Fresh(s.rows, stamp) && Scan(s, r, root, confirm, stamp).Some?
    ensures LiveMeta(Scan(s, r, root, confirm, stamp).value.rows, p) == ExactMeta(s, r, root, p)
  {
    ScanExact(s, r, root, confirm, stamp, p);
  }

  /** Under a target that was scanned or is gone... */
  lemma TargetedIsExact(s: Source, r: Rules, root: Node, confirm: Confirm, ts: seq<Str>, stamp: Stamp, f: Found, p: Str)
    requires WellFormed(root) && TargetList(ts) && LookTargets(s, r, root, confirm, ts) == Some(f)
    requires Fresh(s.rows, stamp) && UnderAny(p, Scopes(f.out))
    ensures LiveMeta(ScanPaths(s, r, root, confirm, ts, stamp).value.1.rows, p) == ExactMeta(s, r, root, p)
  {
    ScanPathsAt(s, r, root, confirm, ts, stamp, f, p);
    FoundAt(s, r, root, confirm, ts, f, p);
  }

  /** ...and at a row elsewhere that it changed. */
  lemma ChangedIsExact(s: Source, r: Rules, root: Node, confirm: Confirm, ts: seq<Str>, stamp: Stamp, f: Found, p: Str)
    requires WellFormed(root) && TargetList(ts) && LookTargets(s, r, root, confirm, ts) == Some(f)
    requires Fresh(s.rows, stamp) && Scopes(f.out) != [] && !UnderAny(p, Scopes(f.out))
    ensures
      RowAt(ScanPaths(s, r, root, confirm, ts, stamp).value.1.rows, p) != RowAt(s.rows, p) ==>
      LiveMeta(ScanPaths(s, r, root, confirm, ts, stamp).value.1.rows, p) == ExactMeta(s, r, root, p)
  {
    ScanPathsAt(s, r, root, confirm, ts, stamp, f, p);
    FoundIsExact(s, r, root, confirm, ts);
  }

  /** The targeted scan refines the full one. On the same tree and catalog: under every target it
      scanned or found gone, the live rows and their metadata are those a successful full scan
      leaves; a row elsewhere is as it was, unless it is a hardlink partner of a target's file, and
      then it too is what the full scan leaves. */
  lemma TargetedRefinesFull(s: Source, r: Rules, root: Node, confirm: Confirm, ts: seq<Str>, stamp: Stamp,
      fullConfirm: Confirm, fullStamp: Stamp, p: Str)
    requires WellFormed(root) && TargetList(ts) && Fresh(s.rows, stamp) && Fresh(s.rows, fullStamp)
    requires ScanPaths(s, r, root, confirm, ts, stamp).Some? && Scan(s, r, root, fullConfirm, fullStamp).Some?
    ensures var (out, s') := ScanPaths(s, r, root, confirm, ts, stamp).value;
      var full := Scan(s, r, root, fullConfirm, fullStamp).value;
      && (UnderAny(p, Scopes(out)) ==> LiveMeta(s'.rows, p) == LiveMeta(full.rows, p))
      && (RowAt(s'.rows, p) != RowAt(s.rows, p) ==> LiveMeta(s'.rows, p) == LiveMeta(full.rows, p))
  {
    var f := LookTargets(s, r, root, confirm, ts).value;
    FullIsExact(s, r, root, fullConfirm, fullStamp, p);
    if UnderAny(p, Scopes(f.out)) {
      TargetedIsExact(s, r, root, confirm, ts, stamp, f, p);
    } else if Scopes(f.out) != [] {
      ChangedIsExact(s, r, root, confirm, ts, stamp, f, p);
    }
  }

  /** Which rows a targeted scan may write at all: those under the targets it scanned or found gone
      and the nominated partners. */
  lemma TargetedLeavesOthers(s: Source, r: Rules, root: Node, confirm: Confirm, ts: seq<Str>, stamp: Stamp, f: Found,
      p: Str)
    requires WellFormed(root) && TargetList(ts) && LookTargets(s, r, root, confirm, ts) == Some(f)
    requires !UnderAny(p, Scopes(f.out)) && p !in RelsOf(f.partners)
    ensures RowAt(ScanPaths(s, r, root, confirm, ts, stamp).value.1.rows, p) == RowAt(s.rows, p)
  {
    if Scopes(f.out) != [] { ScanPathsAt(s, r, root, confirm, ts, stamp, f, p); }
  }
}
