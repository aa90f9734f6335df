/** The source as one scan finds it, and what the walk of a folder catalogs. The answers of the
    filesystem (a folder that cannot be read, an entry that is gone, a failing mount) are part of
    the tree, so the same tree means the same answers. */
module Tree {
  import opened Wrappers
  import opened Bytes
  import opened Paths
  import opened Excludes

  datatype DevIno = DevIno(dev: nat, ino: nat)

  datatype Meta = Meta(size: nat, mtimeNs: int, ctimeNs: int, dev: nat, inode: nat, nlink: nat) {
    function Key(): DevIno { DevIno(dev, inode) }
  }

  /** What opening and listing a folder gives: its entries; a plain error on opening it, or on listing
      it; "not there any more"; a folder that is not the one that was lstat'ed; an error of a lost mount. */
  datatype Access = Readable | Denied | Unlistable | Vanished | Swapped | FatalIO

  /** Whether a folder holds the running master key: by a listed name, only by a lookup under
      another spelling, or unknown because the mount is failing. */
  datatype KeyFile = NoKey | Listed | OtherSpelling | KeyFatal

  datatype Node =
    | File(m: Meta)
    | Dir(id: DevIno, access: Access, key: KeyFile, entries: seq<Entry>)
    | Special   // a symlink, device, socket or FIFO
    | Missing   // listed, but lstat says it does not exist
    | Broken    // lstat fails, but not as a lost mount does
    | Fatal     // lstat fails as a lost mount does

  datatype Entry = Entry(name: Str, node: Node)

  /** What a scan leaves out: excluded entries, and folders that are a destination root or the
      config directory. */
  datatype Rules = Rules(excluded: Decider, forbidden: set<DevIno>)

  predicate Lists(es: seq<Entry>, name: Str) {
    exists e | e in es :: e.name == name
  }

  function Find(es: seq<Entry>, name: Str): Option<Node> {
    if es == [] then None
    else if es[0].name == name then Some(es[0].node)
    else Find(es[1..], name)
  }

  /** Every folder lists each name once, and names are names. */
  ghost predicate WellFormed(n: Node) {
    n.Dir? ==> WellFormedEntries(n.entries)
  }

  ghost predicate WellFormedEntries(es: seq<Entry>) {
    es != [] ==>
      && NormalName(es[0].name) && NoSlash(es[0].name)
      && !Lists(es[1..], es[0].name)
      && WellFormed(es[0].node)
      && WellFormedEntries(es[1..])
  }

  // ---- The walk ----

  /** A regular file the walk saw. */
  datatype Walked = Walked(rel: Str, m: Meta)

  /** The walk read-only: the files and the folders that could not be read, in walk order, and how
      many entries were skipped; or a refused scan. */
  datatype Walk = Refused | Seen(files: seq<Walked>, unreadable: seq<Str>, skipped: nat)

  const NOTHING: Walk := Seen([], [], 0)

  function Then(a: Walk, b: Walk): Walk {
    if a.Refused? || b.Refused? then Refused
    else Seen(a.files + b.files, a.unreadable + b.unreadable, a.skipped + b.skipped)
  }

  /** dirError, and the folder that was swapped while it was opened. */
  function DirError(access: Access, rel: Str): Walk {
    if access.FatalIO? || rel == ROOT then Refused
    else if access.Vanished? then NOTHING
    else Seen([], [rel], 0)
  }

  function WalkDir(r: Rules, d: Node, rel: Str): Walk
    requires d.Dir?
    decreases d, 0
  {
    if d.access != Readable then DirError(d.access, rel)
    else if d.key.KeyFatal? then Refused
    else if d.key.Listed? then Seen([], [], 1)
    else WalkEntries(r, d.entries, rel)
  }

  function WalkEntries(r: Rules, es: seq<Entry>, rel: Str): Walk
    decreases es, 2
  {
    if es == [] then NOTHING
    else Then(WalkEntry(r, es[0], rel), WalkEntries(r, es[1..], rel))
  }

  function WalkEntry(r: Rules, e: Entry, rel: Str): Walk
    decreases e, 1
  {
    var child := JoinRel(rel, e.name);
    match e.node
    case Fatal => Refused
    case Missing => NOTHING
    case Broken => NOTHING
    case File(m) => if r.excluded(child, e.name, false) then NOTHING else Seen([Walked(child, m)], [], 0)
    case Special => if r.excluded(child, e.name, false) then NOTHING else Seen([], [], 1)
    case Dir(_, _, _, _) => EnterDir(r, e.node, child, e.name)
  }

  function EnterDir(r: Rules, d: Node, rel: Str, name: Str): Walk
    requires d.Dir?
    decreases d, 1
  {
    if r.excluded(rel, name, true) then NOTHING
    else if d.id in r.forbidden then Seen([], [], 1)
    else WalkDir(r, d, rel)
  }

  // ---- What the walk reaches, by name ----

  predicate Enterable(d: Node) {
    d.Dir? && d.access.Readable? && (d.key.NoKey? || d.key.OtherSpelling?)
  }

  /** The node at the end of the names cs inside the folder d, when the walk gets there: every
      folder on the way is readable and holds no key, and nothing on the way is excluded or
      forbidden. */
  function Reach(r: Rules, d: Node, rel: Str, cs: seq<Str>): Option<Node>
    requires |cs| >= 1
    decreases |cs|, 1
  {
    if !Enterable(d) then None else ReachIn(r, d.entries, rel, cs)
  }

  function ReachIn(r: Rules, es: seq<Entry>, rel: Str, cs: seq<Str>): Option<Node>
    requires |cs| >= 1
    decreases |cs|, 0
  {
    var child := JoinRel(rel, cs[0]);
    match Find(es, cs[0])
    case None => None
    case Some(n) =>
      if r.excluded(child, cs[0], n.Dir?) || (n.Dir? && n.id in r.forbidden) then None
      else if |cs| == 1 then Some(n)
      else Reach(r, n, child, cs[1..])
  }

  predicate Unreadable(n: Node) {
    n.Dir? && (n.access.Denied? || n.access.Unlistable? || n.access.Swapped?)
  }

  // ---- The walk catalogs exactly what it reaches ----

  lemma JoinRelIsNotRoot(rel: Str, name: Str)
    requires NormalName(name)
    ensures JoinRel(rel, name) != ROOT
  {
    if rel != ROOT { assert |JoinRel(rel, name)| >= 2; }
  }

  /** The paths under a child of rel start with that child's name. */
  lemma FirstName(rel: Str, cs: seq<Str>, name: Str)
    requires |cs| >= 1 && NoSlash(cs[0]) && NoSlash(name)
    requires Under(Pre(rel) + Join(cs), JoinRel(rel, name))
    ensures cs[0] == name
  {
    var s, q, b := Join(cs), Pre(rel), |name|;
    if q + s != JoinRel(rel, name) {
      assert (q + s)[..|q| + b + 1] == q + name + [SLASH];
      assert s[..b + 1] == (q + s)[|q|..|q| + b + 1] == name + [SLASH];
      assert s[b] == s[..b + 1][b] == SLASH;
    } else {
      assert s == (q + s)[|q|..] == name;
    }
    assert s[0..b] == name;
    NextSlash(s, 0, name);
    JoinHead(cs);
  }

  ghost predicate AllUnder(w: Walk, t: Str) {
    w.Seen? ==> (forall f :: f in w.files ==> Under(f.rel, t)) && (forall u :: u in w.unreadable ==> Under(u, t))
  }

  ghost predicate AllInside(w: Walk, t: Str) {
    w.Seen? ==> (forall f :: f in w.files ==> Inside(f.rel, t)) && (forall u :: u in w.unreadable ==> Inside(u, t))
  }

  /** The walk of a folder entry, unfolded. */
  lemma WalkEntryOfDir(r: Rules, e: Entry, rel: Str)
    requires e.node.Dir?
    ensures var child, d := JoinRel(rel, e.name), e.node;
      WalkEntry(r, e, rel) ==
        if r.excluded(child, e.name, true) then NOTHING
        else if d.id in r.forbidden then Seen([], [], 1)
        else if d.access != Readable then DirError(d.access, child)
        else if d.key.KeyFatal? then Refused
        else if d.key.Listed? then Seen([], [], 1)
        else WalkEntries(r, d.entries, child)
  {
    var child := JoinRel(rel, e.name);
    assert WalkEntry(r, e, rel) == EnterDir(r, e.node, child, e.name);
    assert EnterDir(r, e.node, child, e.name) ==
      if r.excluded(child, e.name, true) then NOTHING
      else if e.node.id in r.forbidden then Seen([], [], 1)
      else WalkDir(r, e.node, child);
  }

  lemma {:induction false} EntryUnder(r: Rules, e: Entry, rel: Str)
    requires NormalName(e.name) && WellFormed(e.node)
    ensures AllUnder(WalkEntry(r, e, rel), JoinRel(rel, e.name))
    decreases e, 0
  {
    var child := JoinRel(rel, e.name);
    JoinRelIsNotRoot(rel, e.name);
    if e.node.Dir? {
      WalkEntryOfDir(r, e, rel);
      if Enterable(e.node) { EntriesInside(r, e.node.entries, child); }
    }
  }

  lemma {:induction false} EntriesInside(r: Rules, es: seq<Entry>, rel: Str)
    requires WellFormedEntries(es) && rel != ROOT
    ensures AllInside(WalkEntries(r, es, rel), rel)
    decreases es, 1
  {
    if es != [] {
      EntryUnder(r, es[0], rel);
      EntriesInside(r, es[1..], rel);
      forall p | Under(p, JoinRel(rel, es[0].name)) ensures Inside(p, rel) {
        UnderInside(p, rel, es[0].name);
      }
    }
  }

  lemma UnderInside(p: Str, rel: Str, name: Str)
    requires rel != ROOT && Under(p, JoinRel(rel, name))
    ensures Inside(p, rel)
  {
    var child := JoinRel(rel, name);
    assert child == p[..|child|];
    assert p[..|rel| + 1] == child[..|rel| + 1] == rel + [SLASH];
  }

  /** What the walk of a folder says about the path of the names cs in it. */
  ghost predicate Agrees(w: Walk, p: Str, reached: Option<Node>) {
    w.Seen? ==>
      && (forall m :: Walked(p, m) in w.files <==> reached == Some(File(m)))
      && (p in w.unreadable <==> reached.Some? && Unreadable(reached.value))
  }

  ghost predicate Silent(w: Walk, p: Str) {
    w.Seen? ==> (forall m :: Walked(p, m) !in w.files) && p !in w.unreadable
  }

  lemma {:induction false} EntryExact(r: Rules, e: Entry, rel: Str, cs: seq<Str>)
    requires NormalName(e.name) && WellFormed(e.node)
    requires |cs| >= 1 && (forall k :: 0 <= k < |cs| ==> NoSlash(cs[k])) && cs[0] == e.name
    ensures Agrees(WalkEntry(r, e, rel), Pre(rel) + Join(cs), ReachIn(r, [e], rel, cs))
    decreases e, 0
  {
    var child := JoinRel(rel, e.name);
    var p := Pre(rel) + Join(cs);
    var n := e.node;
    JoinRelIsNotRoot(rel, e.name);
    assert Find([e], cs[0]) == Some(n);
    if n.Dir? { WalkEntryOfDir(r, e, rel); }
    if |cs| == 1 {
      assert p == child;
      if n.Dir? && Enterable(n) {
        EntriesInside(r, n.entries, child);
        assert !Inside(child, child);
      }
    } else {
      assert p == Pre(child) + Join(cs[1..]);
      assert p != child;
      if n.Dir? && Enterable(n) {
        EntriesExact(r, n.entries, child, cs[1..]);
      }
    }
  }

  lemma {:induction false} EntriesExact(r: Rules, es: seq<Entry>, rel: Str, cs: seq<Str>)
    requires WellFormedEntries(es)
    requires |cs| >= 1 && (forall k :: 0 <= k < |cs| ==> NoSlash(cs[k]))
    ensures Agrees(WalkEntries(r, es, rel), Pre(rel) + Join(cs), ReachIn(r, es, rel, cs))
    decreases es, 1
  {
    var p := Pre(rel) + Join(cs);
    if es != [] {
      if es[0].name == cs[0] {
        EntryExact(r, es[0], rel, cs);
        OthersSilent(r, es[1..], rel, cs);
        assert Find(es, cs[0]) == Find([es[0]], cs[0]);
      } else {
        EntryUnder(r, es[0], rel);
        if Under(p, JoinRel(rel, es[0].name)) { FirstName(rel, cs, es[0].name); }
        EntriesExact(r, es[1..], rel, cs);
      }
    }
  }

  lemma {:induction false} OthersSilent(r: Rules, es: seq<Entry>, rel: Str, cs: seq<Str>)
    requires WellFormedEntries(es) && |cs| >= 1 && NoSlash(cs[0])
    requires !Lists(es, cs[0])
    ensures Silent(WalkEntries(r, es, rel), Pre(rel) + Join(cs))
  {
    if es != [] {
      EntryUnder(r, es[0], rel);
      if Under(Pre(rel) + Join(cs), JoinRel(rel, es[0].name)) { FirstName(rel, cs, es[0].name); }
      OthersSilent(r, es[1..], rel, cs);
    }
  }

  /** The full walk, path by path: a file is seen, with its metadata, exactly when the walk reaches
      it by its names, and a folder is reported unreadable exactly when it reaches it and fails. */
  lemma WalkExact(r: Rules, root: Node, p: Str)
    requires WellFormed(root) && Enterable(root)
    ensures Agrees(WalkDir(r, root, ROOT), p, Reach(r, root, ROOT, Split(p)))
  {
    EntriesExact(r, root.entries, ROOT, Split(p));
    assert Pre(ROOT) + Join(Split(p)) == p;
  }

  // ---- Excludes and everything else, apart ----

  function NeverExcluded(rel: Str, base: Str, isDir: bool): bool { false }

  function WithoutExcludes(r: Rules): Rules { r.(excluded := NeverExcluded) }

  /** Excludes only cut off: a file is reached exactly when it would be reached without them and no
      element of its path is excluded. */
  lemma {:induction false} ReachExcluded(r: Rules, d: Node, rel: Str, cs: seq<Str>, m: Meta)
    requires WellFormed(d) && |cs| >= 1
    ensures Reach(r, d, rel, cs) == Some(File(m))
        <==> Reach(WithoutExcludes(r), d, rel, cs) == Some(File(m)) && !AnyElementAfter(r.excluded, Pre(rel), cs)
    decreases |cs|
  {
    var r0, child := WithoutExcludes(r), JoinRel(rel, cs[0]);
    if Enterable(d) && Find(d.entries, cs[0]).Some? {
      var n := Find(d.entries, cs[0]).value;
      FoundIsWellFormed(d.entries, cs[0]);
      JoinRelIsNotRoot(rel, cs[0]);
      assert cs[..0 + 1] == [cs[0]];
      assert Pre(rel) + Join(cs[..0 + 1]) == child;
      assert ElementExcludedAfter(r.excluded, Pre(rel), cs, 0) <==> r.excluded(child, cs[0], |cs| > 1);
      if |cs| > 1 {
        assert Pre(rel) + cs[0] + [SLASH] == Pre(child);
        AnyElementStep(r.excluded, Pre(rel), cs);
        ReachExcluded(r, n, child, cs[1..], m);
      } else {
        assert AnyElementAfter(r.excluded, Pre(rel), cs) <==> ElementExcludedAfter(r.excluded, Pre(rel), cs, 0);
      }
    }
  }

  lemma {:induction false} FoundIsWellFormed(es: seq<Entry>, name: Str)
    requires WellFormedEntries(es) && Find(es, name).Some?
    ensures NormalName(name) && NoSlash(name) && WellFormed(Find(es, name).value)
  {
    if es[0].name != name { FoundIsWellFormed(es[1..], name); }
  }

  /** The walk catalogs a regular file exactly when it is there behind readable folders that are
      neither forbidden nor hold the key, and ExcludedWithin is false. */
  lemma WalkIsExcludedWithin(r: Rules, root: Node, p: Str, m: Meta)
    requires WellFormed(root) && Enterable(root) && WalkDir(r, root, ROOT).Seen?
    ensures Walked(p, m) in WalkDir(r, root, ROOT).files
        <==> Reach(WithoutExcludes(r), root, ROOT, Split(p)) == Some(File(m)) && !ExcludedWithin(r.excluded, p, false)
  {
    WalkExact(r, root, p);
    ReachExcluded(r, root, ROOT, Split(p), m);
    WithinFromElements(r.excluded, p, 0);
    WithinFromIsExcludedWithin(r.excluded, p);
    assert p[..0] == Pre(ROOT);
  }

  // ---- No file is seen twice ----

  function RelOf(w: Walked): Str { w.rel }

  lemma {:induction false} EntryFilesDistinct(r: Rules, e: Entry, rel: Str)
    requires NormalName(e.name) && WellFormed(e.node) && WalkEntry(r, e, rel).Seen?
    ensures DistinctBy(RelOf, WalkEntry(r, e, rel).files)
    decreases e, 0
  {
    if e.node.Dir? {
      WalkEntryOfDir(r, e, rel);
      if Enterable(e.node) && WalkEntries(r, e.node.entries, JoinRel(rel, e.name)).Seen? {
        EntriesFilesDistinct(r, e.node.entries, JoinRel(rel, e.name));
      }
    }
  }

  lemma {:induction false} EntriesFilesDistinct(r: Rules, es: seq<Entry>, rel: Str)
    requires WellFormedEntries(es) && WalkEntries(r, es, rel).Seen?
    ensures DistinctBy(RelOf, WalkEntries(r, es, rel).files)
    decreases es, 1
  {
    if es != [] {
      var a, b := WalkEntry(r, es[0], rel), WalkEntries(r, es[1..], rel);
      EntryFilesDistinct(r, es[0], rel);
      EntriesFilesDistinct(r, es[1..], rel);
      EntryUnder(r, es[0], rel);
      forall f, g | f in a.files && g in b.files ensures f.rel != g.rel {
        OtherEntriesElsewhere(r, es[1..], rel, es[0].name, f.rel);
      }
    }
  }

  /** A path under a name these entries do not list is none of theirs. */
  lemma OtherEntriesElsewhere(r: Rules, es: seq<Entry>, rel: Str, name: Str, p: Str)
    requires WellFormedEntries(es) && !Lists(es, name) && NoSlash(name)
    requires Under(p, JoinRel(rel, name))
    ensures Silent(WalkEntries(r, es, rel), p)
  {
    var q := p[|Pre(rel)|..];
    var child := JoinRel(rel, name);
    assert child == p[..|child|];
    assert p == Pre(rel) + q;
    FirstName(rel, Split(q), name);
    OthersSilent(r, es, rel, Split(q));
  }

  lemma WalkFilesDistinct(r: Rules, root: Node)
    requires WellFormed(root) && Enterable(root) && WalkDir(r, root, ROOT).Seen?
    ensures DistinctBy(RelOf, WalkDir(r, root, ROOT).files)
  {
    EntriesFilesDistinct(r, root.entries, ROOT);
  }
}
