/** The targeted scan as one function of the tree and the catalog, and its agreement with the full
    scan. */
module Targets {
  import opened Wrappers
  import opened Bytes
  import opened Paths
  import opened Tree
  import opened Groups
  import opened Catalog
  import opened CatalogStats
  import opened FullScan

  datatype State = Scanned | GoneAway | Dropped | KeptBack

  datatype Target = Target(path: Str, state: State) {
    predicate Current() { state.Scanned? || state.GoneAway? }
  }

  // ---- One target ----

  /** What one target gave; None is a refused scan. */
  datatype Visit = Visit(state: State, walk: Walk)

  const DROP: Option<Visit> := Some(Visit(Dropped, NOTHING))

  /** liveUnderExcept > 0: live rows in the folder parent other than t and what lies inside it. */
  predicate LiveUnderExcept(rows: Rows, parent: Str, t: Str) {
    exists p | p in rows ::
      && Live(rows, p)
      && p != t && !InRange(p, PrefixRange(t))
      && (parent == ROOT || InRange(p, PrefixRange(parent)))
  }

  /** goneTarget: the target is gone unless its folder is empty while the catalog has other files there. */
  function GoneTarget(rows: Rows, d: Node, rel: Str, t: Str): Option<Visit>
    requires d.Dir?
  {
    Some(Visit(if d.entries == [] && LiveUnderExcept(rows, rel, t) then KeptBack else GoneAway, NOTHING))
  }

  /** Opening the folder d on the way to a target: None to go on. An open folder is asked for the key
      before it is listed. */
  function Blocked(d: Node): Option<Option<Visit>>
    requires d.Dir?
  {
    if d.access.FatalIO? || ((d.access.Readable? || d.access.Unlistable?) && d.key.KeyFatal?) then Some(None)
    else if !d.access.Readable? || !d.key.NoKey? then Some(DROP)
    else None
  }

  /** The last name of target t, in its opened folder d. A name the folder does not list is gone,
      whatever a lookup under another spelling finds. */
  function VisitLeaf(rows: Rows, r: Rules, d: Node, rel: Str, name: Str, t: Str): Option<Visit>
    requires d.Dir?
  {
    match Find(d.entries, name)
    case None => GoneTarget(rows, d, rel, t)
    case Some(Missing) => GoneTarget(rows, d, rel, t)
    case Some(Fatal) => None
    case Some(Broken) => DROP
    case Some(Special) => Some(Visit(Scanned, NOTHING))
    case Some(File(m)) =>
      Some(Visit(Scanned, if r.excluded(t, name, false) then NOTHING else Seen([Walked(t, m)], [], 0)))
    case Some(n) =>
      var w := EnterDir(r, n, t, name);
      if w.Refused? then None
      else Some(Visit(if t in w.unreadable then Dropped else Scanned, w))
  }

  /** walkTarget: t, name by name, from the opened folder d. */
  function VisitFrom(rows: Rows, r: Rules, d: Node, rel: Str, cs: seq<Str>, t: Str): Option<Visit>
    requires d.Dir? && |cs| >= 1
    decreases |cs|
  {
    if |cs| == 1 then VisitLeaf(rows, r, d, rel, cs[0], t)
    else
      var child := JoinRel(rel, cs[0]);
      match Find(d.entries, cs[0])
      case Some(Fatal) => None
      case Some(Dir(id, access, key, entries)) =>
        var n := Dir(id, access, key, entries);
        if r.excluded(child, cs[0], true) || id in r.forbidden then DROP
        else if Blocked(n).Some? then Blocked(n).value
        else VisitFrom(rows, r, n, child, cs[1..], t)
      case _ => DROP
  }

  function VisitTarget(rows: Rows, r: Rules, root: Node, t: Str): Option<Visit>
    requires root.Dir?
  {
    match Blocked(root)
    case Some(stop) => stop
    case None => VisitFrom(rows, r, root, ROOT, Split(t), t)
  }

  // ---- All targets ----

  /** The targets in order, their outcomes and everything their walks saw. */
  function VisitAll(rows: Rows, r: Rules, root: Node, ts: seq<Str>): Option<(seq<Target>, Walk)>
    requires root.Dir?
  {
    if ts == [] then Some(([], NOTHING))
    else
      var n := |ts| - 1;
      match (VisitAll(rows, r, root, ts[..n]), VisitTarget(rows, r, root, ts[n]))
      case (Some((out, w)), Some(v)) => Some((out + [Target(ts[n], v.state)], Then(w, v.walk)))
      case _ => None
  }

  function Scopes(out: seq<Target>): (r: seq<Str>)
    ensures forall t :: t in r <==> exists x :: x in out && x.Current() && x.path == t
  {
    if out == [] then []
    else
      var last := out[|out| - 1];
      assert out == out[..|out| - 1] + [last];
      Scopes(out[..|out| - 1]) + if last.Current() then [last.path] else []
  }

  /** rel_path = t OR (rel_path >= lo AND rel_path < hi), for one of the scanned targets. */
  predicate InScopes(scopes: seq<Str>, p: Str) {
    exists t | t in scopes :: p == t || InRange(p, PrefixRange(t))
  }

  function InScopesOf(scopes: seq<Str>): Str -> bool {
    p => InScopes(scopes, p)
  }

  lemma InScopesIsUnderAny(scopes: seq<Str>, p: Str)
    ensures InScopes(scopes, p) <==> UnderAny(p, scopes)
  {
    forall t ensures InRange(p, PrefixRange(t)) <==> Inside(p, t) { PrefixRangeIsInside(t, p); }
  }

  // ---- Hardlink partners outside the targets ----

  datatype Stat = StatFatal | NoFile | IsFile(m: Meta)

  /** lstatPartner, name by name, from the opened folder d. */
  function LstatFrom(r: Rules, d: Node, rel: Str, cs: seq<Str>): Stat
    requires d.Dir? && |cs| >= 1
    decreases |cs|
  {
    var child := JoinRel(rel, cs[0]);
    match Find(d.entries, cs[0])
    case Some(Fatal) => StatFatal
    case Some(File(m)) => if |cs| == 1 && !r.excluded(child, cs[0], false) then IsFile(m) else NoFile
    case Some(Dir(id, access, key, entries)) =>
      var n := Dir(id, access, key, entries);
      if |cs| == 1 || r.excluded(child, cs[0], true) || id in r.forbidden then NoFile
      else if Blocked(n).Some? then (if Blocked(n).value.None? then StatFatal else NoFile)
      else LstatFrom(r, n, child, cs[1..])
    case _ => NoFile
  }

  function LstatPartner(r: Rules, root: Node, rel: Str): Stat
    requires root.Dir?
  {
    match Blocked(root)
    case Some(stop) => if stop.None? then StatFatal else NoFile
    case None => LstatFrom(r, root, ROOT, Split(rel))
  }

  ghost function RelsWithInode(rows: Rows, k: DevIno): seq<Str> {
    SortSet(Self, set p | p in rows && Live(rows, p) && rows[p].m.Key() == k)
  }

  /** The partners of the candidates cands of one inode among the rows rels; None is a refused scan. */
  function PartnersAmong(scopes: seq<Str>, r: Rules, root: Node, cands: seq<Walked>,
      rels: seq<Str>): Option<seq<Walked>>
    requires root.Dir? && cands != []
  {
    if rels == [] then Some([])
    else
      var rel := rels[|rels| - 1];
      match PartnersAmong(scopes, r, root, cands, rels[..|rels| - 1])
      case None => None
      case Some(ps) =>
        if UnderAny(rel, scopes) || Mentions(cands, rel) then Some(ps)
        else match LstatPartner(r, root, rel)
          case StatFatal => None
          case NoFile => Some(ps)
          case IsFile(m) => Some(if m == cands[0].m then ps + [Walked(rel, m)] else ps)
  }

  predicate KeyLeq(a: DevIno, b: DevIno) {
    a.dev < b.dev || (a.dev == b.dev && a.ino <= b.ino)
  }

  predicate IsFirst(ks: set<DevIno>, k: DevIno) {
    k in ks && forall l :: l in ks ==> KeyLeq(k, l)
  }

  lemma FirstOfMore(ks: set<DevIno>, k: DevIno, l: DevIno)
    requires k in ks && IsFirst(ks - {k}, l)
    ensures IsFirst(ks, if KeyLeq(l, k) then l else k)
  {
    forall x | x in ks && x != k ensures KeyLeq(l, x) {
      assert x in ks - {k};
    }
  }

  lemma {:induction false} FirstKeyExists(ks: set<DevIno>) returns (first: DevIno)
    requires ks != {}
    ensures IsFirst(ks, first)
  {
    first :| first in ks;
    if ks != {first} {
      var l := FirstKeyExists(ks - {first});
      FirstOfMore(ks, first, l);
      first := if KeyLeq(l, first) then l else first;
    }
  }

  ghost function FirstKey(ks: set<DevIno>): (k: DevIno)
    requires ks != {}
    ensures k in ks && forall l :: l in ks ==> KeyLeq(k, l)
  {
    assert exists k :: IsFirst(ks, k) by {
      var first := FirstKeyExists(ks);
      assert IsFirst(ks, first);
    }
    var k :| IsFirst(ks, k);
    k
  }

  lemma FirstKeyUnique(ks: set<DevIno>, k: DevIno)
    requires IsFirst(ks, k)
    ensures ks != {} && k == FirstKey(ks)
  {
    var f := FirstKey(ks);
    assert f in ks && KeyLeq(k, f) && KeyLeq(f, k);
  }

  /** nominatePartners: inode by inode, in (dev, ino) order. */
  ghost function Nominate(rows: Rows, scopes: seq<Str>, r: Rules, root: Node, links: Links,
      ks: set<DevIno>): Option<seq<Walked>>
    requires root.Dir? && ks <= links.Keys && forall k :: k in links ==> links[k] != []
  {
    if ks == {} then Some([])
    else
      var k := FirstKey(ks);
      match (PartnersAmong(scopes, r, root, links[k], RelsWithInode(rows, k)),
        Nominate(rows, scopes, r, root, links, ks - {k}))
      case (Some(ps), Some(rest)) => Some(ps + rest)
      case _ => None
  }

  lemma LinksNonempty(ws: seq<Walked>)
    ensures forall k :: k in LinksOf(ws) ==> LinksOf(ws)[k] != []
  {
    forall k | k in LinksOf(ws) ensures LinksOf(ws)[k] != [] { LinksOfAt(ws, k); }
  }

  // ---- The whole targeted scan ----

  /** What the read-only part found. */
  datatype Found = Found(out: seq<Target>, walk: Walk, partners: seq<Walked>, groups: seq<Group>)

  ghost function LookTargets(s: Source, r: Rules, root: Node, confirm: Confirm, ts: seq<Str>): Option<Found> {
    if !RootOk(r, root) then None
    else match VisitAll(s.rows, r, root, ts)
      case None => None
      case Some((out, w)) =>
        if w.Refused? then None
        else
          LinksNonempty(w.files);
          var links := LinksOf(w.files);
          match Nominate(s.rows, Scopes(out), r, root, links, links.Keys)
          case None => None
          case Some(partners) =>
            match ConfirmAll(confirm, Plan(LinksOf(w.files + partners)))
            case None => None
            case Some(groups) => Some(Found(out, w, partners, groups))
  }

  function RelsOf(ws: seq<Walked>): set<Str> {
    set w | w in ws :: w.rel
  }

  /** The rows that leave their groups: those in scope and the partners. */
  ghost function Cleared(rows: Rows, scope: Str -> bool, partners: seq<Walked>): set<Str> {
    (set p | p in rows && scope(p)) + RelsOf(partners)
  }

  ghost function FinishedTargets(s: Source, rows: Rows, f: Found, stamp: Stamp): Rows
    requires f.walk.Seen?
  {
    var scope := InScopesOf(Scopes(f.out));
    Finish(rows, stamp, f.walk.unreadable, scope, Cleared(rows, scope, f.partners), f.groups, s.id, s.scanSeq + 1)
  }

  ghost function FinishTargets(s: Source, rows: Rows, f: Found, stamp: Stamp): Source
    requires f.walk.Seen?
  {
    var rows' := FinishedTargets(s, rows, f, stamp);
    Source(s.id, rows', s.scanSeq + 1, ComputeStats(rows', s.stats.skipped))
  }

  /** It takes the rows it is given. */
  lemma FinishTargetsOf(s: Source, others: Rows, rows: Rows, f: Found, stamp: Stamp)
    requires f.walk.Seen?
    ensures FinishTargets(s.(rows := others), rows, f, stamp) == FinishTargets(s, rows, f, stamp)
  {
  }

  /** A targeted scan of the canonical targets ts that ends. */
  ghost function ScanPaths(s: Source, r: Rules, root: Node, confirm: Confirm, ts: seq<Str>,
      stamp: Stamp): Option<(seq<Target>, Source)>
  {
    match LookTargets(s, r, root, confirm, ts)
    case None => None
    case Some(f) =>
      if Scopes(f.out) == [] then Some((f.out, s))
      else Some((f.out, FinishTargets(s, Committed(s.rows, f.walk.files + f.partners, stamp), f, stamp)))
  }

  /** A targeted scan cut off before its final transaction. */
  ghost predicate CutOffPaths(s: Source, r: Rules, root: Node, confirm: Confirm, ts: seq<Str>, stamp: Stamp, i: nat,
      j: nat, s': Source)
  {
    match LookTargets(s, r, root, confirm, ts)
    case None => s' == s
    case Some(f) =>
      var ws := f.walk.files + f.partners;
      if Scopes(f.out) == [] then s' == s
      else
        && i <= |Pending(s.rows, ws)| && j <= |Unchanged(s.rows, ws)|
        && s' == s.(rows := CommitPrefix(s.rows, ws, stamp, i, j))
  }
}
