/** When a full scan is refused: exactly when the root is not usable, the walk meets a failing mount, the source
    looks unmounted, or the check of a hardlink group fails. */
module Refusals {
  import opened Wrappers
  import opened Bytes
  import opened Paths
  import opened Tree
  import opened Groups
  import opened Catalog
  import opened CatalogStats
  import opened FullScan
  import opened Hardlinks

  /** The node the walk arrives at by the names cs, from the folder d on. */
  function NodeAt(r: Rules, d: Node, rel: Str, cs: seq<Str>): Option<Node> {
    if cs == [] then Some(d) else Reach(r, d, rel, cs)
  }

  /** One name further. */
  lemma NodeAtStep(r: Rules, d: Node, rel: Str, cs: seq<Str>)
    requires cs != []
    ensures NodeAt(r, d, rel, cs) ==
      if !Enterable(d) || Find(d.entries, cs[0]).None? then None
      else
        var n := Find(d.entries, cs[0]).value;
        if r.excluded(JoinRel(rel, cs[0]), cs[0], n.Dir?) || (n.Dir? && n.id in r.forbidden) then None
        else NodeAt(r, n, JoinRel(rel, cs[0]), cs[1..])
  {
    if Enterable(d) {
      assert Reach(r, d, rel, cs) == ReachIn(r, d.entries, rel, cs);
      match Find(d.entries, cs[0])
      case None =>
      case Some(n) =>
        assert ReachIn(r, d.entries, rel, cs) ==
          if r.excluded(JoinRel(rel, cs[0]), cs[0], n.Dir?) || (n.Dir? && n.id in r.forbidden) then None
          else if |cs| == 1 then Some(n)
          else Reach(r, n, JoinRel(rel, cs[0]), cs[1..]);
    }
  }

  /** The mount fails in the folder d: when it is opened or listed, when it is asked for the key, or when one of
      its entries is. */
  predicate MountFails(d: Node) {
    && d.Dir?
    && (|| d.access.FatalIO?
        || (d.access.Readable? && d.key.KeyFatal?)
        || (Enterable(d) && exists e | e in d.entries :: e.node.Fatal?))
  }

  predicate MountFailsAt(r: Rules, d: Node, rel: Str, cs: seq<Str>) {
    NodeAt(r, d, rel, cs).Some? && MountFails(NodeAt(r, d, rel, cs).value)
  }

  lemma {:induction false} FoundIsEntry(es: seq<Entry>, name: Str)
    requires Find(es, name).Some?
    ensures Entry(name, Find(es, name).value) in es
  {
    if es[0].name != name { FoundIsEntry(es[1..], name); }
  }

  lemma {:induction false} EntryIsFound(es: seq<Entry>, i: nat)
    requires WellFormedEntries(es) && i < |es|
    ensures Find(es, es[i].name) == Some(es[i].node) && NormalName(es[i].name) && WellFormed(es[i].node)
  {
    if i > 0 {
      assert es[i] in es[1..];
      EntryIsFound(es[1..], i - 1);
    }
  }

  lemma {:induction false} OneEntryRefuses(r: Rules, es: seq<Entry>, rel: Str, e: Entry)
    requires e in es && WalkEntry(r, e, rel).Refused?
    ensures WalkEntries(r, es, rel).Refused?
  {
    if es[0] != e { OneEntryRefuses(r, es[1..], rel, e); }
  }

  lemma {:induction false} RefusedByOne(r: Rules, es: seq<Entry>, rel: Str) returns (i: nat)
    requires WalkEntries(r, es, rel).Refused?
    ensures i < |es| && WalkEntry(r, es[i], rel).Refused?
  {
    if WalkEntry(r, es[0], rel).Refused? {
      i := 0;
    } else {
      i := RefusedByOne(r, es[1..], rel);
      i := i + 1;
    }
  }

  lemma {:induction false} FailingMountRefuses(r: Rules, d: Node, rel: Str, cs: seq<Str>)
    requires WellFormed(d) && d.Dir? && MountFailsAt(r, d, rel, cs)
    ensures WalkDir(r, d, rel).Refused?
    decreases |cs|
  {
    if cs == [] {
      if Enterable(d) {
        var e :| e in d.entries && e.node.Fatal?;
        OneEntryRefuses(r, d.entries, rel, e);
      }
    } else {
      NodeAtStep(r, d, rel, cs);
      var n := Find(d.entries, cs[0]).value;
      var e := Entry(cs[0], n);
      FoundIsWellFormed(d.entries, cs[0]);
      FoundIsEntry(d.entries, cs[0]);
      FailingMountRefuses(r, n, JoinRel(rel, cs[0]), cs[1..]);
      assert WalkEntry(r, e, rel) == EnterDir(r, n, JoinRel(rel, cs[0]), cs[0]);
      OneEntryRefuses(r, d.entries, rel, e);
    }
  }

  lemma {:induction false} RefusedByMount(r: Rules, d: Node, rel: Str) returns (cs: seq<Str>)
    requires WellFormed(d) && d.Dir? && (rel == ROOT ==> d.access.Readable?) && WalkDir(r, d, rel).Refused?
    ensures MountFailsAt(r, d, rel, cs)
    decreases d
  {
    cs := [];
    if Enterable(d) {
      var i := RefusedByOne(r, d.entries, rel);
      var e := d.entries[i];
      EntryIsFound(d.entries, i);
      if !e.node.Fatal? {
        JoinRelIsNotRoot(rel, e.name);
        assert WalkEntry(r, e, rel) == EnterDir(r, e.node, JoinRel(rel, e.name), e.name);
        var deeper := RefusedByMount(r, e.node, JoinRel(rel, e.name));
        cs := [e.name] + deeper;
        assert cs[1..] == deeper;
        NodeAtStep(r, d, rel, cs);
      } else {
        assert e in d.entries;
      }
    }
  }

  /** The walk of a folder is refused exactly when it meets a failing mount. */
  lemma WalkRefusedIff(r: Rules, d: Node, rel: Str)
    requires WellFormed(d) && d.Dir? && (rel == ROOT ==> d.access.Readable?)
    ensures WalkDir(r, d, rel).Refused? <==> exists cs :: MountFailsAt(r, d, rel, cs)
  {
    if WalkDir(r, d, rel).Refused? {
      var cs := RefusedByMount(r, d, rel);
      assert MountFailsAt(r, d, rel, cs);
    }
    if exists cs :: MountFailsAt(r, d, rel, cs) {
      var cs :| MountFailsAt(r, d, rel, cs);
      FailingMountRefuses(r, d, rel, cs);
    }
  }

  lemma {:induction false} ConfirmRefusedIff(confirm: Confirm, groups: seq<Group>)
    ensures ConfirmAll(confirm, groups).None? <==> exists g :: g in groups && confirm(g).None?
  {
    if groups != [] {
      var n := |groups| - 1;
      ConfirmRefusedIff(confirm, groups[..n]);
      assert groups == groups[..n] + [groups[n]];
    }
  }

  /** The root is a directory that can be read, is not forbidden, and holds no key under any spelling. */
  predicate RootUsable(r: Rules, root: Node) {
    root.Dir? && root.access.Readable? && root.id !in r.forbidden && root.key.NoKey?
  }

  /** The source contains no file while the catalog lists one. */
  ghost predicate NoFileLeft(s: Source, r: Rules, root: Node) {
    (forall p :: FileAt(r, root, p).None?) && exists p :: Live(s.rows, p)
  }

  ghost predicate CheckFails(r: Rules, root: Node, confirm: Confirm) {
    exists g :: NamesOneFile(r, root, g) && confirm(g).None?
  }

  lemma NoFileLeftIff(s: Source, r: Rules, root: Node)
    requires WellFormed(root) && Enterable(root) && WalkDir(r, root, ROOT).Seen?
    ensures LooksUnmounted(s.rows, WalkDir(r, root, ROOT).files) <==> NoFileLeft(s, r, root)
  {
    var files := WalkDir(r, root, ROOT).files;
    forall p ensures MetaAt(files, p) == FileAt(r, root, p) {
      WalkExact(r, root, p);
      WalkedIsFileAt(r, root, WalkDir(r, root, ROOT), p);
    }
    if files != [] { assert MetaAt(files, files[0].rel).Some? by { assert files[0] in files; } }
    forall p ensures p in LiveSet(s.rows) <==> Live(s.rows, p) {
    }
    if exists p :: Live(s.rows, p) {
      var p :| Live(s.rows, p);
      assert p in LiveSet(s.rows);
    }
  }

  /** A full scan is refused if and only if its root is not usable, its walk meets a failing mount, it finds no
      file while the catalog lists one, or the check of one of the groups it finds fails. */
  lemma RefusedIff(s: Source, r: Rules, root: Node, confirm: Confirm, stamp: Stamp)
    requires WellFormed(root)
    ensures Scan(s, r, root, confirm, stamp).None? <==>
      || !RootUsable(r, root)
      || (exists cs :: MountFailsAt(r, root, ROOT, cs))
      || NoFileLeft(s, r, root)
      || CheckFails(r, root, confirm)
  {
    if RootUsable(r, root) {
      WalkRefusedIff(r, root, ROOT);
      if WalkDir(r, root, ROOT).Seen? {
        NoFileLeftIff(s, r, root);
        CheckFailsIff(r, root, confirm);
      }
    }
  }

  lemma CheckFailsIff(r: Rules, root: Node, confirm: Confirm)
    requires WellFormed(root) && RootOk(r, root) && WalkDir(r, root, ROOT).Seen?
    ensures ConfirmAll(confirm, Plan(LinksOf(WalkDir(r, root, ROOT).files))).None? <==> CheckFails(r, root, confirm)
  {
    var files := WalkDir(r, root, ROOT).files;
    ConfirmRefusedIff(confirm, Plan(LinksOf(files)));
    forall g ensures g in Plan(LinksOf(files)) <==> NamesOneFile(r, root, g) {
      PlannedIff(r, root, g);
    }
  }
}
