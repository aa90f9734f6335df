/** What becomes of each target of a targeted scan, when the scan is refused, and which hardlink partners it
    nominates: each told from the tree and the rows alone, in both directions. */
module Outcomes {
  import opened Wrappers
  import opened Bytes
  import opened Paths
  import opened Tree
  import opened Groups
  import opened Catalog
  import opened FullScan
  import opened Hardlinks
  import opened Refusals
  import opened Targets
  import opened Refinement

  // ---- The way to a path ----

  predicate Open(n: Node) {
    n.Dir? && n.access.Readable? && n.key.NoKey?
  }

  /** Every folder above the last of the names cs, from d on, can be opened and listed and holds no key under any
      spelling; none is excluded or forbidden. */
  ghost predicate WayOpen(r: Rules, d: Node, rel: Str, cs: seq<Str>)
    requires |cs| >= 1
  {
    Open(d) && forall k :: 1 <= k < |cs| ==> OpenAt(r, d, rel, cs, k)
  }

  predicate OpenAt(r: Rules, d: Node, rel: Str, cs: seq<Str>, k: nat)
    requires k <= |cs|
  {
    NodeAt(r, d, rel, cs[..k]).Some? && Open(NodeAt(r, d, rel, cs[..k]).value)
  }

  /** The folder of the last name. */
  function FolderOf(r: Rules, d: Node, rel: Str, cs: seq<Str>): Option<Node>
    requires |cs| >= 1
  {
    NodeAt(r, d, rel, cs[..|cs| - 1])
  }

  /** What its folder lists under the last name, be it excluded or not. */
  function LeafOf(r: Rules, d: Node, rel: Str, cs: seq<Str>): Option<Node>
    requires |cs| >= 1
  {
    match FolderOf(r, d, rel, cs)
    case Some(Dir(_, _, _, entries)) => Find(entries, cs[|cs| - 1])
    case _ => None
  }

  /** The path of that folder. */
  function FolderPath(rel: Str, cs: seq<Str>): Str
    requires |cs| >= 1
    decreases |cs|
  {
    if |cs| == 1 then rel else FolderPath(JoinRel(rel, cs[0]), cs[1..])
  }

  /** The first folder of the way, and the way from there. */
  lemma DeeperAt(r: Rules, d: Node, rel: Str, cs: seq<Str>, k: nat)
    requires 1 <= k <= |cs| && NodeAt(r, d, rel, [cs[0]]).Some?
    ensures NodeAt(r, d, rel, cs[..k]) ==
      NodeAt(r, NodeAt(r, d, rel, [cs[0]]).value, JoinRel(rel, cs[0]), cs[1..][..k - 1])
  {
    NodeAtStep(r, d, rel, [cs[0]]);
    NodeAtStep(r, d, rel, cs[..k]);
    assert cs[..k][0] == cs[0] && cs[..k][1..] == cs[1..][..k - 1];
  }

  lemma FirstOfWay(r: Rules, d: Node, rel: Str, cs: seq<Str>)
    requires |cs| > 1
    ensures cs[..1] == [cs[0]]
    ensures
      var n := NodeAt(r, d, rel, [cs[0]]);
      WayOpen(r, d, rel, cs) <==>
      Open(d) && n.Some? && Open(n.value) && WayOpen(r, n.value, JoinRel(rel, cs[0]), cs[1..])
  {
    var n := NodeAt(r, d, rel, [cs[0]]);
    assert cs[..1] == [cs[0]];
    if WayOpen(r, d, rel, cs) {
      assert OpenAt(r, d, rel, cs, 1);
      forall k | 1 <= k < |cs[1..]| ensures OpenAt(r, n.value, JoinRel(rel, cs[0]), cs[1..], k) {
        assert OpenAt(r, d, rel, cs, k + 1);
        DeeperAt(r, d, rel, cs, k + 1);
      }
    }
    if Open(d) && n.Some? && Open(n.value) && WayOpen(r, n.value, JoinRel(rel, cs[0]), cs[1..]) {
      forall k | 1 <= k < |cs| ensures OpenAt(r, d, rel, cs, k) {
        DeeperAt(r, d, rel, cs, k);
        if k > 1 { assert OpenAt(r, n.value, JoinRel(rel, cs[0]), cs[1..], k - 1); }
      }
    }
  }

  lemma LeafDeeper(r: Rules, d: Node, rel: Str, cs: seq<Str>)
    requires |cs| > 1 && NodeAt(r, d, rel, [cs[0]]).Some?
    ensures
      var n, child := NodeAt(r, d, rel, [cs[0]]).value, JoinRel(rel, cs[0]);
      FolderOf(r, d, rel, cs) == FolderOf(r, n, child, cs[1..]) && LeafOf(r, d, rel, cs) == LeafOf(r, n, child, cs[1..])
  {
    DeeperAt(r, d, rel, cs, |cs| - 1);
  }

  // ---- One target ----

  /** With the way open, a target is what its last name is; otherwise it is dropped or the scan refused. */
  lemma {:induction false} VisitIsLeaf(rows: Rows, r: Rules, d: Node, rel: Str, cs: seq<Str>, t: Str)
    requires Open(d) && |cs| >= 1
    ensures WayOpen(r, d, rel, cs) ==> FolderOf(r, d, rel, cs).Some? && Open(FolderOf(r, d, rel, cs).value)
    ensures WayOpen(r, d, rel, cs) ==>
      (VisitFrom(rows, r, d, rel, cs, t) ==
       VisitLeaf(rows, r, FolderOf(r, d, rel, cs).value, FolderPath(rel, cs), cs[|cs| - 1], t))
    ensures !WayOpen(r, d, rel, cs) ==> VisitFrom(rows, r, d, rel, cs, t) in {None, DROP}
    decreases |cs|
  {
    if |cs| > 1 {
      FirstOfWay(r, d, rel, cs);
      NodeAtStep(r, d, rel, [cs[0]]);
      var n := NodeAt(r, d, rel, [cs[0]]);
      if n.Some? && Open(n.value) {
        VisitIsLeaf(rows, r, n.value, JoinRel(rel, cs[0]), cs[1..], t);
        LeafDeeper(r, d, rel, cs);
      }
    }
  }

  /** Live rows in the folder parent besides t and what lies inside it. */
  ghost predicate OthersThere(rows: Rows, parent: Str, t: Str) {
    exists p :: Live(rows, p) && !Under(p, t) && (parent == ROOT || Inside(p, parent))
  }

  lemma OthersThereIff(rows: Rows, parent: Str, t: Str)
    ensures LiveUnderExcept(rows, parent, t) <==> OthersThere(rows, parent, t)
  {
    forall p ensures InRange(p, PrefixRange(t)) <==> Inside(p, t) { PrefixRangeIsInside(t, p); }
    forall p ensures InRange(p, PrefixRange(parent)) <==> Inside(p, parent) { PrefixRangeIsInside(parent, p); }
  }

  /** The target t is missing from a folder that can be opened. */
  ghost predicate IsMissing(r: Rules, root: Node, t: Str) {
    var cs := Split(t);
    WayOpen(r, root, ROOT, cs) && (LeafOf(r, root, ROOT, cs).None? || LeafOf(r, root, ROOT, cs).value.Missing?)
  }

  /** Its folder is empty although the catalog lists other files there. */
  ghost predicate LooksEmptied(rows: Rows, r: Rules, root: Node, t: Str) {
    var cs := Split(t);
    && FolderOf(r, root, ROOT, cs).Some? && FolderOf(r, root, ROOT, cs).value.Dir?
    && FolderOf(r, root, ROOT, cs).value.entries == [] && OthersThere(rows, FolderPath(ROOT, cs), t)
  }

  /** It is there, and no folder that cannot be read. */
  ghost predicate IsThere(r: Rules, root: Node, t: Str) {
    var cs := Split(t);
    && WayOpen(r, root, ROOT, cs) && LeafOf(r, root, ROOT, cs).Some?
    && (LeafOf(r, root, ROOT, cs).value.File? || LeafOf(r, root, ROOT, cs).value.Special?
        || LeafOf(r, root, ROOT, cs).value.Dir?)
    && !(NodeAt(r, root, ROOT, cs).Some? && Unreadable(NodeAt(r, root, ROOT, cs).value))
  }

  /** What becomes of a target in a scan that is not refused: gone if it is missing, kept if it is but its folder
      looks emptied, scanned if it is there, and dropped otherwise. */
  lemma TargetOutcome(rows: Rows, r: Rules, root: Node, t: Str)
    requires WellFormed(root) && RootOk(r, root) && VisitTarget(rows, r, root, t).Some?
    ensures VisitTarget(rows, r, root, t).value.state ==
      if IsMissing(r, root, t) then if LooksEmptied(rows, r, root, t) then KeptBack else GoneAway
      else if IsThere(r, root, t) then Scanned
      else Dropped
  {
    var cs := Split(t);
    if Open(root) {
      VisitIsLeaf(rows, r, root, ROOT, cs, t);
      if WayOpen(r, root, ROOT, cs) {
        LeafOutcome(rows, r, root, cs, t);
      }
    }
  }

  lemma LeafOutcome(rows: Rows, r: Rules, root: Node, cs: seq<Str>, t: Str)
    requires WellFormed(root) && cs == Split(t) && WayOpen(r, root, ROOT, cs)
    requires FolderOf(r, root, ROOT, cs).Some? && Open(FolderOf(r, root, ROOT, cs).value)
    requires var visit := VisitFrom(rows, r, root, ROOT, cs, t);
      visit.Some? &&
      visit == VisitLeaf(rows, r, FolderOf(r, root, ROOT, cs).value, FolderPath(ROOT, cs), cs[|cs| - 1], t)
    ensures VisitFrom(rows, r, root, ROOT, cs, t).value.state ==
      if IsMissing(r, root, t) then if LooksEmptied(rows, r, root, t) then KeptBack else GoneAway
      else if IsThere(r, root, t) then Scanned
      else Dropped
  {
    var leaf := LeafOf(r, root, ROOT, cs);
    if leaf.None? || leaf.value.Missing? {
      OthersThereIff(rows, FolderPath(ROOT, cs), t);
    } else if leaf.value.Dir? {
      FolderIsSeen(rows, r, root, ROOT, cs, t);
    } else if NodeAt(r, root, ROOT, cs).Some? {
      NodeIsLeaf(r, root, ROOT, cs);
    }
  }

  lemma {:induction false} NodeIsLeaf(r: Rules, d: Node, rel: Str, cs: seq<Str>)
    requires |cs| >= 1 && WayOpen(r, d, rel, cs) && NodeAt(r, d, rel, cs).Some?
    ensures LeafOf(r, d, rel, cs) == NodeAt(r, d, rel, cs)
    decreases |cs|
  {
    NodeAtStep(r, d, rel, cs);
    if |cs| > 1 {
      FirstOfWay(r, d, rel, cs);
      LeafDeeper(r, d, rel, cs);
      DeeperAt(r, d, rel, cs, |cs|);
      assert cs[..|cs|] == cs && cs[1..][..|cs| - 1] == cs[1..];
      NodeIsLeaf(r, NodeAt(r, d, rel, [cs[0]]).value, JoinRel(rel, cs[0]), cs[1..]);
    }
  }

  /** A folder that is the target itself is dropped exactly when it is reached and cannot be read. */
  lemma {:induction false} FolderIsSeen(rows: Rows, r: Rules, d: Node, rel: Str, cs: seq<Str>, t: Str)
    requires WellFormed(d) && |cs| >= 1 && WayOpen(r, d, rel, cs) && t == Pre(rel) + Join(cs)
    requires forall k :: 0 <= k < |cs| ==> NoSlash(cs[k])
    requires LeafOf(r, d, rel, cs).Some? && LeafOf(r, d, rel, cs).value.Dir? && VisitFrom(rows, r, d, rel, cs, t).Some?
    ensures VisitFrom(rows, r, d, rel, cs, t).value.state ==
      if NodeAt(r, d, rel, cs).Some? && Unreadable(NodeAt(r, d, rel, cs).value) then Dropped else Scanned
    decreases |cs|
  {
    var name := cs[0];
    NodeAtStep(r, d, rel, cs);
    if |cs| == 1 {
      var n := Find(d.entries, name).value;
      FoundIsWellFormed(d.entries, name);
      EntryExact(r, Entry(name, n), rel, cs);
      assert Find([Entry(name, n)], name) == Some(n);
      assert WalkEntry(r, Entry(name, n), rel) == EnterDir(r, n, t, name);
    } else {
      FirstOfWay(r, d, rel, cs);
      LeafDeeper(r, d, rel, cs);
      NodeAtStep(r, d, rel, [name]);
      FoundIsWellFormed(d.entries, name);
      JoinRelIsNotRoot(rel, name);
      DeeperName(rel, cs);
      DeeperAt(r, d, rel, cs, |cs|);
      assert cs[..|cs|] == cs && cs[1..][..|cs| - 1] == cs[1..];
      FolderIsSeen(rows, r, NodeAt(r, d, rel, [name]).value, JoinRel(rel, name), cs[1..], t);
    }
  }

  // ---- Refused scans ----

  /** Opening the folder n on the way to a path fails as a lost mount does. */
  predicate OpeningFails(n: Node) {
    n.Dir? && (n.access.FatalIO? || ((n.access.Readable? || n.access.Unlistable?) && n.key.KeyFatal?))
  }

  /** The way is open up to the k-th name, and the mount fails there. */
  ghost predicate FailsAtName(r: Rules, d: Node, rel: Str, cs: seq<Str>, k: nat)
    requires k < |cs|
  {
    && WayOpen(r, d, rel, cs[..k + 1])
    && (|| LeafOf(r, d, rel, cs[..k + 1]) == Some(Fatal)
        || (k + 1 < |cs| && NodeAt(r, d, rel, cs[..k + 1]).Some? &&
            OpeningFails(NodeAt(r, d, rel, cs[..k + 1]).value)))
  }

  ghost predicate FailsOnWay(r: Rules, d: Node, rel: Str, cs: seq<Str>) {
    exists k: nat :: k < |cs| && FailsAtName(r, d, rel, cs, k)
  }

  lemma FailsDeeper(r: Rules, d: Node, rel: Str, cs: seq<Str>)
    requires |cs| > 1 && Open(d) && NodeAt(r, d, rel, [cs[0]]).Some? && Open(NodeAt(r, d, rel, [cs[0]]).value)
    ensures FailsOnWay(r, d, rel, cs) <==>
      FailsOnWay(r, NodeAt(r, d, rel, [cs[0]]).value, JoinRel(rel, cs[0]), cs[1..])
  {
    var n, child := NodeAt(r, d, rel, [cs[0]]).value, JoinRel(rel, cs[0]);
    NodeAtStep(r, d, rel, [cs[0]]);
    assert cs[..1] == [cs[0]];
    forall k: nat | 1 <= k < |cs|
      ensures FailsAtName(r, d, rel, cs, k) <==> FailsAtName(r, n, child, cs[1..], k - 1)
    {
      FailsDeeperAt(r, d, rel, cs, k);
    }
    if FailsOnWay(r, d, rel, cs) {
      var k: nat :| k < |cs| && FailsAtName(r, d, rel, cs, k);
      assert k != 0;
      assert FailsAtName(r, n, child, cs[1..], k - 1);
    }
    if FailsOnWay(r, n, child, cs[1..]) {
      var k: nat :| k < |cs[1..]| && FailsAtName(r, n, child, cs[1..], k);
      assert FailsAtName(r, d, rel, cs, k + 1);
    }
  }

  lemma FailsDeeperAt(r: Rules, d: Node, rel: Str, cs: seq<Str>, k: nat)
    requires 1 <= k < |cs| && Open(d) && NodeAt(r, d, rel, [cs[0]]).Some? && Open(NodeAt(r, d, rel, [cs[0]]).value)
    ensures FailsAtName(r, d, rel, cs, k) <==>
      FailsAtName(r, NodeAt(r, d, rel, [cs[0]]).value, JoinRel(rel, cs[0]), cs[1..], k - 1)
  {
    var up := cs[..k + 1];
    assert up[0] == cs[0] && up[1..] == cs[1..][..k];
    FirstOfWay(r, d, rel, up);
    LeafDeeper(r, d, rel, up);
    DeeperAt(r, d, rel, cs, k + 1);
  }

  /** The target itself is a folder the walk reaches, and the mount fails in it or below. */
  ghost predicate FailsInside(r: Rules, d: Node, rel: Str, cs: seq<Str>)
    requires |cs| >= 1
  {
    WayOpen(r, d, rel, cs) && exists below :: MountFailsAt(r, d, rel, cs + below)
  }

  /** A scan is refused on the way to a target exactly when the mount fails there or in the target. */
  lemma {:induction false} VisitRefusedIff(rows: Rows, r: Rules, d: Node, rel: Str, cs: seq<Str>, t: Str)
    requires WellFormed(d) && Open(d) && |cs| >= 1 && t == Pre(rel) + Join(cs)
    ensures VisitFrom(rows, r, d, rel, cs, t).None? <==> FailsOnWay(r, d, rel, cs) || FailsInside(r, d, rel, cs)
    decreases |cs|
  {
    var name := cs[0];
    assert cs[..1] == [name];
    NodeAtStep(r, d, rel, [name]);
    if Find(d.entries, name).Some? { FoundIsWellFormed(d.entries, name); }
    if |cs| == 1 {
      assert cs == [name];
      LeafRefusedIff(rows, r, d, rel, name);
    } else {
      FirstOfWay(r, d, rel, cs);
      var n := NodeAt(r, d, rel, [name]);
      if n.Some? && Open(n.value) {
        JoinRelIsNotRoot(rel, name);
        DeeperName(rel, cs);
        VisitRefusedIff(rows, r, n.value, JoinRel(rel, name), cs[1..], t);
        FailsDeeper(r, d, rel, cs);
        FailsInsideDeeper(r, d, rel, cs);
      } else {
        FailsAtFirst(r, d, rel, cs);
      }
    }
  }

  lemma FailsInsideDeeper(r: Rules, d: Node, rel: Str, cs: seq<Str>)
    requires |cs| > 1 && Open(d) && NodeAt(r, d, rel, [cs[0]]).Some? && Open(NodeAt(r, d, rel, [cs[0]]).value)
    ensures FailsInside(r, d, rel, cs) <==>
      FailsInside(r, NodeAt(r, d, rel, [cs[0]]).value, JoinRel(rel, cs[0]), cs[1..])
  {
    var n, child := NodeAt(r, d, rel, [cs[0]]).value, JoinRel(rel, cs[0]);
    FirstOfWay(r, d, rel, cs);
    NodeAtStep(r, d, rel, [cs[0]]);
    forall below ensures MountFailsAt(r, d, rel, cs + below) <==> MountFailsAt(r, n, child, cs[1..] + below) {
      NodeAtStep(r, d, rel, cs + below);
      assert (cs + below)[1..] == cs[1..] + below;
    }
  }

  /** When the first folder cannot be opened, only its own failing matters. */
  lemma FailsAtFirst(r: Rules, d: Node, rel: Str, cs: seq<Str>)
    requires |cs| > 1 && Open(d)
    requires var n := NodeAt(r, d, rel, [cs[0]]); n.None? || !Open(n.value)
    ensures !FailsInside(r, d, rel, cs)
    ensures FailsOnWay(r, d, rel, cs) <==> FailsAtName(r, d, rel, cs, 0)
  {
    assert cs[..1] == [cs[0]];
    FirstOfWay(r, d, rel, cs);
    forall k: nat | 1 <= k < |cs| ensures !FailsAtName(r, d, rel, cs, k) {
      assert cs[..k + 1][0] == cs[0];
      FirstOfWay(r, d, rel, cs[..k + 1]);
    }
  }

  lemma LeafRefusedIff(rows: Rows, r: Rules, d: Node, rel: Str, name: Str)
    requires WellFormed(d) && Open(d)
    ensures VisitLeaf(rows, r, d, rel, name, JoinRel(rel, name)).None? <==>
      FailsOnWay(r, d, rel, [name]) || FailsInside(r, d, rel, [name])
  {
    var child, n := JoinRel(rel, name), Find(d.entries, name);
    assert [name][..1] == [name];
    assert FailsOnWay(r, d, rel, [name]) <==> FailsAtName(r, d, rel, [name], 0);
    NodeAtStep(r, d, rel, [name]);
    forall below ensures MountFailsAt(r, d, rel, [name] + below) <==>
        NodeAt(r, d, rel, [name]).Some? && MountFailsAt(r, NodeAt(r, d, rel, [name]).value, child, below)
    {
      NodeAtStep(r, d, rel, [name] + below);
      assert ([name] + below)[1..] == below;
    }
    if n.Some? && n.value.Dir? {
      FoundIsWellFormed(d.entries, name);
      JoinRelIsNotRoot(rel, name);
      WalkRefusedIff(r, n.value, child);
    }
  }

  // ---- The partners ----

  /** A partner is a file exactly when the walk of the whole source reaches it behind folders without a key, and
      the lookup refuses the scan exactly when the mount fails on the way. */
  lemma {:induction false} LstatIff(r: Rules, d: Node, rel: Str, cs: seq<Str>)
    requires Open(d) && |cs| >= 1
    ensures LstatFrom(r, d, rel, cs).StatFatal? <==> FailsOnWay(r, d, rel, cs)
    ensures forall m :: LstatFrom(r, d, rel, cs) == IsFile(m) <==>
      WayOpen(r, d, rel, cs) && NodeAt(r, d, rel, cs) == Some(File(m))
    decreases |cs|
  {
    var name := cs[0];
    assert cs[..1] == [name];
    NodeAtStep(r, d, rel, [name]);
    NodeAtStep(r, d, rel, cs);
    if |cs| == 1 {
      assert FailsOnWay(r, d, rel, cs) <==> FailsAtName(r, d, rel, cs, 0);
    } else {
      FirstOfWay(r, d, rel, cs);
      var n := NodeAt(r, d, rel, [name]);
      if n.Some? && Open(n.value) {
        LstatIff(r, n.value, JoinRel(rel, name), cs[1..]);
        FailsDeeper(r, d, rel, cs);
      } else {
        FailsAtFirst(r, d, rel, cs);
      }
    }
  }

  lemma {:induction false} AmongIff(scopes: seq<Str>, r: Rules, root: Node, cands: seq<Walked>, rels: seq<Str>, p: Str,
      m: Meta)
    requires root.Dir? && cands != [] && PartnersAmong(scopes, r, root, cands, rels).Some?
    ensures Walked(p, m) in PartnersAmong(scopes, r, root, cands, rels).value <==>
      && p in rels && !UnderAny(p, scopes) && !Mentions(cands, p)
      && LstatPartner(r, root, p) == IsFile(m) && m == cands[0].m
  {
    if rels != [] {
      var n := |rels| - 1;
      AmongIff(scopes, r, root, cands, rels[..n], p, m);
      assert rels == rels[..n] + [rels[n]];
    }
  }

  lemma {:induction false} NominatedByKey(rows: Rows, scopes: seq<Str>, r: Rules, root: Node, links: Links,
      ks: set<DevIno>, p: Str, m: Meta)
    requires root.Dir? && ks <= links.Keys && forall k :: k in links ==> links[k] != [] && links[k][0].m.Key() == k
    requires Nominate(rows, scopes, r, root, links, ks).Some?
    ensures Walked(p, m) in Nominate(rows, scopes, r, root, links, ks).value <==>
      m.Key() in ks &&
      PartnersAmong(scopes, r, root, links[m.Key()], RelsWithInode(rows, m.Key())).Some? &&
      Walked(p, m) in PartnersAmong(scopes, r, root, links[m.Key()], RelsWithInode(rows, m.Key())).value
  {
    if ks != {} {
      var k := FirstKey(ks);
      NominatedByKey(rows, scopes, r, root, links, ks - {k}, p, m);
      AmongIff(scopes, r, root, links[k], RelsWithInode(rows, k), p, m);
    }
  }

  /** ws[i] is the first file of its inode with a link count of 2 or more, and m its metadata. */
  predicate FirstAt(ws: seq<Walked>, m: Meta, i: nat) {
    && i < |ws| && ws[i].m == m && m.nlink >= 2
    && forall j :: 0 <= j < i ==> !(ws[j].m.nlink >= 2 && ws[j].m.Key() == m.Key())
  }

  ghost predicate FirstSeen(ws: seq<Walked>, m: Meta) {
    exists i: nat :: FirstAt(ws, m, i)
  }

  lemma {:induction false} FirstCandidate(ws: seq<Walked>, k: DevIno)
    requires CandsAt(ws, k) != []
    ensures CandsAt(ws, k)[0].m.Key() == k && FirstSeen(ws, CandsAt(ws, k)[0].m)
  {
    var init, last := ws[..|ws| - 1], ws[|ws| - 1];
    var before := CandsAt(init, k);
    assert CandsAt(ws, k) == before + if last.m.nlink >= 2 && last.m.Key() == k then [last] else [];
    if before == [] {
      OnlyCandidate(ws, k);
    } else {
      FirstCandidate(init, k);
      FirstStays(ws, before[0].m);
    }
  }

  lemma FirstStays(ws: seq<Walked>, m: Meta)
    requires ws != [] && FirstSeen(ws[..|ws| - 1], m)
    ensures FirstSeen(ws, m)
  {
    var init := ws[..|ws| - 1];
    var i: nat :| FirstAt(init, m, i);
    assert forall j :: 0 <= j <= i ==> ws[j] == init[j];
    assert FirstAt(ws, m, i);
  }

  lemma OnlyCandidate(ws: seq<Walked>, k: DevIno)
    requires ws != [] && CandsAt(ws[..|ws| - 1], k) == []
    requires var last := ws[|ws| - 1]; last.m.nlink >= 2 && last.m.Key() == k
    ensures FirstSeen(ws, ws[|ws| - 1].m)
  {
    var n := |ws| - 1;
    forall j | 0 <= j < n ensures !(ws[j].m.nlink >= 2 && ws[j].m.Key() == k) {
      assert ws[j] in ws[..n];
      assert ws[j] !in CandsAt(ws[..n], k);
    }
    assert FirstAt(ws, ws[n].m, n);
  }

  lemma FirstSeenIff(ws: seq<Walked>, m: Meta)
    ensures FirstSeen(ws, m) <==> CandsAt(ws, m.Key()) != [] && CandsAt(ws, m.Key())[0].m == m
  {
    var cands := CandsAt(ws, m.Key());
    if FirstSeen(ws, m) {
      var i: nat :| FirstAt(ws, m, i);
      assert ws[i] in cands;
    }
    if cands != [] {
      FirstCandidate(ws, m.Key());
      OneFirst(ws, m, cands[0].m);
    }
  }

  lemma OneFirst(ws: seq<Walked>, m: Meta, l: Meta)
    requires FirstSeen(ws, l) && m.Key() == l.Key()
    ensures FirstSeen(ws, m) <==> m == l
  {
    if FirstSeen(ws, m) {
      var i: nat :| FirstAt(ws, m, i);
      var j: nat :| FirstAt(ws, l, j);
    }
  }

  /** p is a partner with metadata m: a live row of the inode of a file the targets hold, outside the targets,
      that is on disk as the first such file is, behind folders that can be opened and hold no key. */
  ghost predicate Nominated(rows: Rows, scopes: seq<Str>, files: seq<Walked>, r: Rules, root: Node, p: Str, m: Meta) {
    && Live(rows, p) && rows[p].m.Key() == m.Key() && !UnderAny(p, scopes) && FirstSeen(files, m)
    && FileAt(r, root, p) == Some(m) && WayOpen(r, root, ROOT, Split(p))
  }

  lemma CandidatesOfKey(files: seq<Walked>)
    ensures forall k :: k in LinksOf(files) ==> LinksOf(files)[k] != [] && LinksOf(files)[k][0].m.Key() == k
  {
    forall k: DevIno | k in LinksOf(files)
      ensures LinksOf(files)[k] != [] && LinksOf(files)[k][0].m.Key() == k
    {
      LinksOfAt(files, k);
      assert CandsAt(files, k)[0] in CandsAt(files, k);
    }
  }

  /** The nominated partners are exactly these. */
  lemma NominatedIff(rows: Rows, scopes: seq<Str>, files: seq<Walked>, r: Rules, root: Node, partners: seq<Walked>,
      p: Str, m: Meta)
    requires root.Dir? && (forall w :: w in files ==> UnderAny(w.rel, scopes))
    requires forall k :: k in LinksOf(files) ==> LinksOf(files)[k] != []
    requires Nominate(rows, scopes, r, root, LinksOf(files), LinksOf(files).Keys) == Some(partners)
    ensures Walked(p, m) in partners <==> Nominated(rows, scopes, files, r, root, p, m)
  {
    var links, k := LinksOf(files), m.Key();
    CandidatesOfKey(files);
    NominatedByKey(rows, scopes, r, root, links, links.Keys, p, m);
    LinksOfAt(files, k);
    FirstSeenIff(files, m);
    if k in links {
      NominatedKeys(rows, scopes, r, root, links, links.Keys, k);
      RelsWithInodeAre(rows, k);
      AmongIff(scopes, r, root, links[k], RelsWithInode(rows, k), p, m);
      assert !UnderAny(p, scopes) ==> !Mentions(links[k], p);
      if Open(root) { LstatIff(r, root, ROOT, Split(p)); }
    }
  }

  lemma PartnersIff(s: Source, r: Rules, root: Node, confirm: Confirm, ts: seq<Str>, f: Found, p: Str, m: Meta)
    requires WellFormed(root) && TargetList(ts) && LookTargets(s, r, root, confirm, ts) == Some(f)
    ensures f.walk.Seen?
    ensures Walked(p, m) in f.partners <==> Nominated(s.rows, Scopes(f.out), f.walk.files, r, root, p, m)
  {
    FoundIsExact(s, r, root, confirm, ts);
    LinksNonempty(f.walk.files);
    NominatedIff(s.rows, Scopes(f.out), f.walk.files, r, root, f.partners, p, m);
  }

  /** Every inode was asked for. */
  lemma {:induction false} NominatedKeys(rows: Rows, scopes: seq<Str>, r: Rules, root: Node, links: Links,
      ks: set<DevIno>, k: DevIno)
    requires root.Dir? && ks <= links.Keys && k in ks && forall k :: k in links ==> links[k] != []
    requires Nominate(rows, scopes, r, root, links, ks).Some?
    ensures PartnersAmong(scopes, r, root, links[k], RelsWithInode(rows, k)).Some?
  {
    var first := FirstKey(ks);
    if k != first { NominatedKeys(rows, scopes, r, root, links, ks - {first}, k); }
  }

  // ---- Groups after a targeted scan ----

  /** A targeted scan that found f sees the file p with metadata m: under one of its targets, or as a partner. */
  ghost predicate SeesFile(s: Source, r: Rules, root: Node, f: Found, p: Str, m: Meta)
    requires f.walk.Seen?
  {
    || (UnderAny(p, Scopes(f.out)) && FileAt(r, root, p) == Some(m))
    || Nominated(s.rows, Scopes(f.out), f.walk.files, r, root, p, m)
  }

  lemma SeesFileIff(s: Source, r: Rules, root: Node, confirm: Confirm, ts: seq<Str>, f: Found, p: Str, m: Meta)
    requires WellFormed(root) && TargetList(ts) && LookTargets(s, r, root, confirm, ts) == Some(f)
    ensures f.walk.Seen? && (Walked(p, m) in f.walk.files + f.partners <==> SeesFile(s, r, root, f, p, m))
  {
    FoundIsExact(s, r, root, confirm, ts);
    PartnersIff(s, r, root, confirm, ts, f, p, m);
    if UnderAny(p, Scopes(f.out)) {
      var t :| t in Scopes(f.out) && Under(p, t);
      ScopeIsTarget(s.rows, r, root, ts, t);
      FilesAgree(s.rows, r, root, ts, t, p);
      if Walked(p, m) in f.walk.files {
        VisitAllDistinct(s.rows, r, root, ts);
        SameRel(f.walk.files, Walked(p, m), Walked(p, MetaAt(f.walk.files, p).value));
      }
    }
  }

  /** After a targeted scan two files it saw have one group if and only if they are names of one file among all it
      saw. */
  lemma TargetedGroupedIff(s: Source, r: Rules, root: Node, confirm: Confirm, ts: seq<Str>, stamp: Stamp, f: Found,
      p: Str, q: Str)
    requires WellFormed(root) && TargetList(ts) && LookTargets(s, r, root, confirm, ts) == Some(f)
    requires Scopes(f.out) != [] && f.walk.Seen?
    requires (exists m :: SeesFile(s, r, root, f, p, m)) && (exists m :: SeesFile(s, r, root, f, q, m))
    ensures SameGroup(ScanPaths(s, r, root, confirm, ts, stamp).value.1.rows, p, q) <==>
      exists g :: Kept(f.walk.files + f.partners, confirm, g) && Mentions(g, p) && Mentions(g, q)
  {
    var ws := f.walk.files + f.partners;
    FoundIsExact(s, r, root, confirm, ts);
    RowOfSeen(s, r, root, confirm, ts, stamp, f, p);
    RowOfSeen(s, r, root, confirm, ts, stamp, f, q);
    SameGroupIff(ws, confirm, f.groups, s.id, s.scanSeq + 1, p, q);
  }

  lemma RowOfSeen(s: Source, r: Rules, root: Node, confirm: Confirm, ts: seq<Str>, stamp: Stamp, f: Found, p: Str)
    requires WellFormed(root) && TargetList(ts) && LookTargets(s, r, root, confirm, ts) == Some(f)
    requires Scopes(f.out) != [] && f.walk.Seen? && exists m :: SeesFile(s, r, root, f, p, m)
    ensures var rows := ScanPaths(s, r, root, confirm, ts, stamp).value.1.rows;
      p in rows && rows[p].group == GidAt(f.groups, s.id, s.scanSeq + 1, p)
  {
    var m :| SeesFile(s, r, root, f, p, m);
    SeesFileIff(s, r, root, confirm, ts, f, p, m);
    ScanPathsAt(s, r, root, confirm, ts, stamp, f, p);
    var ws := f.walk.files + f.partners;
    assert MetaAt(ws, p).Some? by { assert Walked(p, m) in ws; }
    assert RowAt(ScanPaths(s, r, root, confirm, ts, stamp).value.1.rows, p) ==
      Some(Row(MetaAt(ws, p).value, GidAt(f.groups, s.id, s.scanSeq + 1, p), None, stamp));
  }

  lemma SeenMeta(s: Source, r: Rules, root: Node, confirm: Confirm, ts: seq<Str>, f: Found, p: Str)
    requires WellFormed(root) && TargetList(ts) && LookTargets(s, r, root, confirm, ts) == Some(f)
    ensures f.walk.Seen?
    ensures forall m :: MetaAt(f.walk.files + f.partners, p) == Some(m) <==> SeesFile(s, r, root, f, p, m)
  {
    var ws := f.walk.files + f.partners;
    FoundIsExact(s, r, root, confirm, ts);
    forall m ensures MetaAt(ws, p) == Some(m) <==> SeesFile(s, r, root, f, p, m) {
      SeesFileIff(s, r, root, confirm, ts, f, p, m);
      if Walked(p, m) in ws { SameRel(ws, Walked(p, m), Walked(p, MetaAt(ws, p).value)); }
    }
  }

  /** The whole rows after a targeted scan: those of the files it saw are live and stamped; of the others under its
      targets the live ones that are not hidden are marked deleted; every other row keeps what it says. */
  lemma ScanPathsRows(s: Source, r: Rules, root: Node, confirm: Confirm, ts: seq<Str>, stamp: Stamp, f: Found, p: Str)
    requires WellFormed(root) && TargetList(ts) && LookTargets(s, r, root, confirm, ts) == Some(f)
    requires Scopes(f.out) != [] && f.walk.Seen?
    ensures var rows := ScanPaths(s, r, root, confirm, ts, stamp).value.1.rows;
      && (forall m :: SeesFile(s, r, root, f, p, m) ==> Live(rows, p) && rows[p].m == m && rows[p].lastSeen == stamp)
      && ((forall m :: !SeesFile(s, r, root, f, p, m)) && p in s.rows ==>
          && p in rows && rows[p].m == s.rows[p].m && rows[p].lastSeen == s.rows[p].lastSeen
          && rows[p].group == (if UnderAny(p, Scopes(f.out)) then None else s.rows[p].group)
          && rows[p].deletedAt ==
             if Live(s.rows, p) && UnderAny(p, Scopes(f.out)) && !Hidden(r, root, p) && s.rows[p].lastSeen != stamp
             then Some(stamp) else s.rows[p].deletedAt)
      && ((forall m :: !SeesFile(s, r, root, f, p, m)) && p !in s.rows ==> p !in rows)
  {
    ScanPathsAt(s, r, root, confirm, ts, stamp, f, p);
    SeenMeta(s, r, root, confirm, ts, f, p);
    if UnderAny(p, Scopes(f.out)) { FoundAt(s, r, root, confirm, ts, f, p); }
    var seen := MetaAt(f.walk.files + f.partners, p);
    if seen.Some? { assert SeesFile(s, r, root, f, p, seen.value); }
  }

  /** The outcomes are those of the targets in turn; with none scanned or gone nothing is written. */
  lemma ScanPathsOutcomes(s: Source, r: Rules, root: Node, confirm: Confirm, ts: seq<Str>, stamp: Stamp, i: nat)
    requires WellFormed(root) && ScanPaths(s, r, root, confirm, ts, stamp).Some? && i < |ts|
    ensures var (out, s') := ScanPaths(s, r, root, confirm, ts, stamp).value;
      && |out| == |ts| && VisitTarget(s.rows, r, root, ts[i]).Some?
      && out[i] == Target(ts[i], VisitTarget(s.rows, r, root, ts[i]).value.state)
      && ((forall x :: x in out ==> !x.Current()) ==> s' == s)
      && ((exists x :: x in out && x.Current()) ==>
          s'.id == s.id && s'.scanSeq == s.scanSeq + 1 && s'.stats.skipped == s.stats.skipped)
  {
    var f := LookTargets(s, r, root, confirm, ts).value;
    VisitAllOut(s.rows, r, root, ts, i);
    if x :| x in f.out && x.Current() { assert x.path in Scopes(f.out); }
    if Scopes(f.out) != [] { assert Scopes(f.out)[0] in Scopes(f.out); }
  }

  /** The files the scan saw of one inode agree and are no more than its link count. */
  ghost predicate AllSeen(s: Source, r: Rules, root: Node, f: Found, names: set<Str>, m: Meta)
    requires f.walk.Seen?
  {
    && (forall p :: p in names <==> SeesFile(s, r, root, f, p, m))
    && (forall p, l: Meta :: SeesFile(s, r, root, f, p, l) && l.Key() == m.Key() ==> p in names)
    && 2 <= |names| <= m.nlink
  }

  lemma AllSeenAreNames(s: Source, r: Rules, root: Node, confirm: Confirm, ts: seq<Str>, f: Found, names: set<Str>,
      m: Meta)
    requires WellFormed(root) && TargetList(ts) && LookTargets(s, r, root, confirm, ts) == Some(f) && f.walk.Seen?
    requires AllSeen(s, r, root, f, names, m)
    ensures NamesIn(f.walk.files + f.partners, NameList(names, m))
    ensures forall p :: Mentions(NameList(names, m), p) <==> p in names
  {
    var g, ws := NameList(names, m), f.walk.files + f.partners;
    FoundIsExact(s, r, root, confirm, ts);
    NameListIs(names, m);
    assert g[0] in g;
    forall w: Walked | w.m.nlink >= 2 && w.m.Key() == m.Key() ensures w in g <==> w in ws {
      assert w == Walked(w.rel, w.m);
      SeesFileIff(s, r, root, confirm, ts, f, w.rel, w.m);
      SeesFileIff(s, r, root, confirm, ts, f, w.rel, m);
      if w in ws && w.m != m { SameRel(ws, w, Walked(w.rel, m)); }
    }
    forall p ensures Mentions(g, p) <==> p in names {
      if p in names { assert Walked(p, m) in g; }
    }
  }

  /** All of them, partners outside the targets included, have one group after the scan. */
  lemma HardlinksAreRegrouped(s: Source, r: Rules, root: Node, confirm: Confirm, ts: seq<Str>, stamp: Stamp, f: Found,
      names: set<Str>, m: Meta, p: Str, q: Str)
    requires WellFormed(root) && TargetList(ts) && LookTargets(s, r, root, confirm, ts) == Some(f) && f.walk.Seen?
    requires Scopes(f.out) != [] && AllSeen(s, r, root, f, names, m) && confirm(NameList(names, m)) == Some(true)
    requires p in names && q in names
    ensures SameGroup(ScanPaths(s, r, root, confirm, ts, stamp).value.1.rows, p, q)
  {
    AllSeenAreNames(s, r, root, confirm, ts, f, names, m);
    assert SeesFile(s, r, root, f, p, m) && SeesFile(s, r, root, f, q, m);
    TargetedGroupedIff(s, r, root, confirm, ts, stamp, f, p, q);
    assert Kept(f.walk.files + f.partners, confirm, NameList(names, m));
  }

  // ---- A whole targeted scan that is refused ----

  /** The scan is refused at the target t. */
  ghost predicate TargetFails(r: Rules, root: Node, t: Str) {
    || OpeningFails(root)
    || (Open(root) && (FailsOnWay(r, root, ROOT, Split(t)) || FailsInside(r, root, ROOT, Split(t))))
  }

  lemma TargetRefusedIff(rows: Rows, r: Rules, root: Node, t: Str)
    requires WellFormed(root) && root.Dir?
    ensures VisitTarget(rows, r, root, t).None? <==> TargetFails(r, root, t)
  {
    if Open(root) { VisitRefusedIff(rows, r, root, ROOT, Split(t), t); }
  }

  lemma {:induction false} TargetsRefusedIff(rows: Rows, r: Rules, root: Node, ts: seq<Str>)
    requires WellFormed(root) && root.Dir?
    ensures VisitAll(rows, r, root, ts).None? <==> exists t :: t in ts && TargetFails(r, root, t)
  {
    if ts != [] {
      var n := |ts| - 1;
      TargetsRefusedIff(rows, r, root, ts[..n]);
      TargetRefusedIff(rows, r, root, ts[n]);
      assert ts == ts[..n] + [ts[n]];
    }
  }

  /** The lookup of a live row p, of an inode the targets hold files of, meets a failing mount. */
  ghost predicate PartnerFails(rows: Rows, scopes: seq<Str>, files: seq<Walked>, r: Rules, root: Node, p: Str) {
    && Live(rows, p) && !UnderAny(p, scopes)
    && (exists w :: w in files && w.m.nlink >= 2 && w.m.Key() == rows[p].m.Key())
    && (OpeningFails(root) || (Open(root) && FailsOnWay(r, root, ROOT, Split(p))))
  }

  lemma {:induction false} AmongRefusedIff(scopes: seq<Str>, r: Rules, root: Node, cands: seq<Walked>, rels: seq<Str>)
    requires root.Dir? && cands != []
    ensures PartnersAmong(scopes, r, root, cands, rels).None? <==>
      exists p :: p in rels && !UnderAny(p, scopes) && !Mentions(cands, p) && LstatPartner(r, root, p).StatFatal?
  {
    if rels != [] {
      var n := |rels| - 1;
      AmongRefusedIff(scopes, r, root, cands, rels[..n]);
      assert rels == rels[..n] + [rels[n]];
    }
  }

  lemma {:induction false} NominateRefusedIff(rows: Rows, scopes: seq<Str>, r: Rules, root: Node, links: Links,
      ks: set<DevIno>)
    requires root.Dir? && ks <= links.Keys && forall k :: k in links ==> links[k] != []
    ensures Nominate(rows, scopes, r, root, links, ks).None? <==>
      exists k :: k in ks && PartnersAmong(scopes, r, root, links[k], RelsWithInode(rows, k)).None?
  {
    if ks != {} {
      var k := FirstKey(ks);
      NominateRefusedIff(rows, scopes, r, root, links, ks - {k});
      assert forall l :: l in ks <==> l == k || l in ks - {k};
    }
  }

  lemma PartnersRefusedIff(rows: Rows, scopes: seq<Str>, files: seq<Walked>, r: Rules, root: Node)
    requires root.Dir? && (forall w :: w in files ==> UnderAny(w.rel, scopes))
    requires forall k :: k in LinksOf(files) ==> LinksOf(files)[k] != []
    ensures Nominate(rows, scopes, r, root, LinksOf(files), LinksOf(files).Keys).None? <==>
      exists p :: PartnerFails(rows, scopes, files, r, root, p)
  {
    var links := LinksOf(files);
    NominateRefusedIff(rows, scopes, r, root, links, links.Keys);
    if Nominate(rows, scopes, r, root, links, links.Keys).None? {
      var k: DevIno :| k in links && PartnersAmong(scopes, r, root, links[k], RelsWithInode(rows, k)).None?;
      AmongRefusedIff(scopes, r, root, links[k], RelsWithInode(rows, k));
      var p :| p in RelsWithInode(rows, k) && !UnderAny(p, scopes) && !Mentions(links[k], p) &&
        LstatPartner(r, root, p).StatFatal?;
      PartnerFailsIff(rows, scopes, files, r, root, k, p);
      assert PartnerFails(rows, scopes, files, r, root, p);
    }
    if exists p :: PartnerFails(rows, scopes, files, r, root, p) {
      var p :| PartnerFails(rows, scopes, files, r, root, p);
      var k := rows[p].m.Key();
      RelsWithInodeAre(rows, k);
      LinksOfAt(files, k);
      assert k in links.Keys;
      PartnerFailsIff(rows, scopes, files, r, root, k, p);
      AmongRefusedIff(scopes, r, root, links[k], RelsWithInode(rows, k));
    }
  }

  lemma PartnerFailsIff(rows: Rows, scopes: seq<Str>, files: seq<Walked>, r: Rules, root: Node, k: DevIno, p: Str)
    requires root.Dir? && (forall w :: w in files ==> UnderAny(w.rel, scopes))
    requires k in LinksOf(files) && p in RelsWithInode(rows, k)
    ensures !UnderAny(p, scopes) && !Mentions(LinksOf(files)[k], p) && LstatPartner(r, root, p).StatFatal? <==>
      PartnerFails(rows, scopes, files, r, root, p)
  {
    RelsWithInodeAre(rows, k);
    LinksOfAt(files, k);
    assert CandsAt(files, k)[0] in CandsAt(files, k);
    assert Mentions(LinksOf(files)[k], p) ==> UnderAny(p, scopes);
    if Open(root) { LstatIff(r, root, ROOT, Split(p)); }
  }

  /** ws are the files in the targets and their partners. */
  ghost predicate SeenFiles(rows: Rows, scopes: seq<Str>, files: seq<Walked>, r: Rules, root: Node, ws: seq<Walked>) {
    forall w :: w in ws <==> w in files || Nominated(rows, scopes, files, r, root, w.rel, w.m)
  }

  /** The check of a group of the files in the targets and their partners fails. */
  ghost predicate CheckFailsAmong(rows: Rows, scopes: seq<Str>, files: seq<Walked>, r: Rules, root: Node,
      confirm: Confirm)
  {
    exists ws, g :: SeenFiles(rows, scopes, files, r, root, ws) && NamesIn(ws, g) && confirm(g).None?
  }

  lemma CheckAmongIff(rows: Rows, r: Rules, root: Node, confirm: Confirm, ts: seq<Str>, out: seq<Target>, w: Walk,
      partners: seq<Walked>)
    requires WellFormed(root) && TargetList(ts) && root.Dir? && VisitAll(rows, r, root, ts) == Some((out, w)) && w.Seen?
    requires forall k :: k in LinksOf(w.files) ==> LinksOf(w.files)[k] != []
    requires Nominate(rows, Scopes(out), r, root, LinksOf(w.files), LinksOf(w.files).Keys) == Some(partners)
    ensures ConfirmAll(confirm, Plan(LinksOf(w.files + partners))).None? <==>
      CheckFailsAmong(rows, Scopes(out), w.files, r, root, confirm)
  {
    var ws, scopes := w.files + partners, Scopes(out);
    SeenIsExact(rows, r, root, ts, out, w, partners);
    forall x: Walked ensures x in ws <==> x in w.files || Nominated(rows, scopes, w.files, r, root, x.rel, x.m) {
      NominatedIff(rows, scopes, w.files, r, root, partners, x.rel, x.m);
      assert x == Walked(x.rel, x.m);
    }
    assert SeenFiles(rows, scopes, w.files, r, root, ws);
    ConfirmRefusedIff(confirm, Plan(LinksOf(ws)));
    if g :| g in Plan(LinksOf(ws)) && confirm(g).None? { PlannedIsNames(ws, g); }
    if CheckFailsAmong(rows, scopes, w.files, r, root, confirm) {
      var us: seq<Walked>, g: Group :|
        SeenFiles(rows, scopes, w.files, r, root, us) && NamesIn(us, g) && confirm(g).None?;
      assert forall x :: x in us <==> x in ws;
      NamesArePlanned(ws, g);
    }
  }

  /** After the targets gave visited, the lookup of a partner or the check of a group fails. */
  ghost predicate FailsAfterTargets(rows: Rows, visited: (seq<Target>, Walk), r: Rules, root: Node, confirm: Confirm) {
    && visited.1.Seen?
    && (|| (exists p :: PartnerFails(rows, Scopes(visited.0), visited.1.files, r, root, p))
        || CheckFailsAmong(rows, Scopes(visited.0), visited.1.files, r, root, confirm))
  }

  /** A targeted scan is refused if and only if its root is not acceptable, the mount fails on the way to one of
      its targets or inside it, the lookup of a partner meets a failing mount, or the check of a group fails. */
  lemma ScanPathsRefusedIff(s: Source, r: Rules, root: Node, confirm: Confirm, ts: seq<Str>, stamp: Stamp)
    requires WellFormed(root) && TargetList(ts)
    ensures ScanPaths(s, r, root, confirm, ts, stamp).None? <==>
      || !(root.Dir? && root.id !in r.forbidden && root.key.NoKey?)
      || (exists t :: t in ts && TargetFails(r, root, t))
      || (VisitAll(s.rows, r, root, ts).Some? && FailsAfterTargets(s.rows, VisitAll(s.rows, r, root, ts).value, r, root,
            confirm))
  {
    if RootOk(r, root) {
      TargetsRefusedIff(s.rows, r, root, ts);
      if VisitAll(s.rows, r, root, ts).Some? {
        var (out, w) := VisitAll(s.rows, r, root, ts).value;
        VisitAllUnder(s.rows, r, root, ts);
        LinksNonempty(w.files);
        PartnersRefusedIff(s.rows, Scopes(out), w.files, r, root);
        match Nominate(s.rows, Scopes(out), r, root, LinksOf(w.files), LinksOf(w.files).Keys)
        case None =>
        case Some(partners) => CheckAmongIff(s.rows, r, root, confirm, ts, out, w, partners);
      }
    }
  }
}
