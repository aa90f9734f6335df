/** What a full scan counts as skipped: special files, forbidden folders and folders that hold the key, each reached
    once. */
module Skips {
  import opened Wrappers
  import opened Bytes
  import opened Paths
  import opened Tree
  import opened Catalog
  import opened FullScan
  import opened Refinement
  import opened Refusals

  /** The walk of d looks at the entry by the names cs and skips it. */
  predicate SkipsAt(r: Rules, d: Node, rel: Str, cs: seq<Str>)
    requires |cs| >= 1
  {
    var folder, name := NodeAt(r, d, rel, cs[..|cs| - 1]), cs[|cs| - 1];
    && folder.Some? && Enterable(folder.value) && Find(folder.value.entries, name).Some?
    && IsSkipped(r, Find(folder.value.entries, name).value, Pre(rel) + Join(cs), name)
  }

  predicate IsSkipped(r: Rules, n: Node, path: Str, name: Str) {
    && !r.excluded(path, name, n.Dir?)
    && (n.Special? || (n.Dir? && (n.id in r.forbidden || (n.access.Readable? && n.key.Listed?))))
  }

  // ---- The skipped entries, as the walk meets them ----

  function Behind(name: Str, skips: set<seq<Str>>): set<seq<Str>> {
    set cs | cs in skips :: [name] + cs
  }

  function SkippedEntry(r: Rules, e: Entry, rel: Str): set<seq<Str>>
    decreases e, 0
  {
    var child := JoinRel(rel, e.name);
    if IsSkipped(r, e.node, child, e.name) then {[e.name]}
    else if Enterable(e.node) && !r.excluded(child, e.name, true) then
      Behind(e.name, SkippedIn(r, e.node.entries, child))
    else {}
  }

  function SkippedIn(r: Rules, es: seq<Entry>, rel: Str): set<seq<Str>>
    decreases es, 1
  {
    if es == [] then {} else SkippedEntry(r, es[0], rel) + SkippedIn(r, es[1..], rel)
  }

  lemma BehindIff(name: Str, skips: set<seq<Str>>, cs: seq<Str>)
    requires |cs| >= 1 && cs[0] == name
    ensures cs in Behind(name, skips) <==> cs[1..] in skips
  {
    assert cs == [name] + cs[1..];
    forall ds | [name] + ds == cs ensures ds == cs[1..] {
      assert ([name] + ds)[1..] == ds;
    }
  }

  lemma {:induction false} BehindSize(name: Str, skips: set<seq<Str>>)
    ensures |Behind(name, skips)| == |skips|
  {
    if skips != {} {
      var cs :| cs in skips;
      BehindSize(name, skips - {cs});
      assert Behind(name, skips) == Behind(name, skips - {cs}) + {[name] + cs};
      BehindIff(name, skips - {cs}, [name] + cs);
    }
  }

  /** They begin with the names of these entries. */
  lemma {:induction false} SkippedBegin(r: Rules, es: seq<Entry>, rel: Str, cs: seq<Str>)
    requires cs in SkippedIn(r, es, rel)
    ensures cs != [] && Lists(es, cs[0])
  {
    if cs in SkippedEntry(r, es[0], rel) {
      assert cs[0] == es[0].name;
      assert es[0] in es;
    } else {
      SkippedBegin(r, es[1..], rel, cs);
      var e :| e in es[1..] && e.name == cs[0];
      assert e in es;
    }
  }

  lemma {:induction false} EntryCount(r: Rules, e: Entry, rel: Str)
    requires NormalName(e.name) && WellFormed(e.node) && WalkEntry(r, e, rel).Seen?
    ensures WalkEntry(r, e, rel).skipped == |SkippedEntry(r, e, rel)|
    decreases e, 0
  {
    var child := JoinRel(rel, e.name);
    JoinRelIsNotRoot(rel, e.name);
    if e.node.Dir? {
      WalkEntryOfDir(r, e, rel);
      if Enterable(e.node) && WalkEntries(r, e.node.entries, child).Seen? {
        EntriesCount(r, e.node.entries, child);
        BehindSize(e.name, SkippedIn(r, e.node.entries, child));
      }
    }
  }

  lemma {:induction false} EntriesCount(r: Rules, es: seq<Entry>, rel: Str)
    requires WellFormedEntries(es) && WalkEntries(r, es, rel).Seen?
    ensures WalkEntries(r, es, rel).skipped == |SkippedIn(r, es, rel)|
    decreases es, 1
  {
    if es != [] {
      EntryCount(r, es[0], rel);
      EntriesCount(r, es[1..], rel);
      forall cs | cs in SkippedEntry(r, es[0], rel) ensures cs !in SkippedIn(r, es[1..], rel) {
        assert cs[0] == es[0].name;
        if cs in SkippedIn(r, es[1..], rel) { SkippedBegin(r, es[1..], rel, cs); }
      }
    }
  }

  // ---- They are the entries that are skipped ----

  lemma {:induction false} OnlyItsEntry(r: Rules, es: seq<Entry>, rel: Str, cs: seq<Str>)
    requires WellFormedEntries(es) && |cs| >= 1
    ensures cs in SkippedIn(r, es, rel) <==>
      Find(es, cs[0]).Some? && cs in SkippedEntry(r, Entry(cs[0], Find(es, cs[0]).value), rel)
  {
    if es != [] {
      OnlyItsEntry(r, es[1..], rel, cs);
      if es[0].name == cs[0] {
        assert es[0] == Entry(cs[0], es[0].node);
        if cs in SkippedIn(r, es[1..], rel) { SkippedBegin(r, es[1..], rel, cs); }
      } else {
        assert cs !in SkippedEntry(r, es[0], rel);
      }
    }
  }

  lemma InEntry(r: Rules, e: Entry, rel: Str, cs: seq<Str>)
    requires |cs| >= 1 && cs[0] == e.name
    ensures var child := JoinRel(rel, e.name);
      cs in SkippedEntry(r, e, rel) <==>
        if |cs| == 1 then IsSkipped(r, e.node, child, e.name)
        else
          && !IsSkipped(r, e.node, child, e.name) && Enterable(e.node) && !r.excluded(child, e.name, true)
          && cs[1..] in SkippedIn(r, e.node.entries, child)
  {
    var child := JoinRel(rel, e.name);
    assert |cs| == 1 ==> cs == [e.name];
    if Enterable(e.node) {
      var skips := SkippedIn(r, e.node.entries, child);
      BehindIff(e.name, skips, cs);
      if |cs| == 1 && cs[1..] in skips { SkippedBegin(r, e.node.entries, child, cs[1..]); }
    }
  }

  lemma SkipsDeeper(r: Rules, d: Node, rel: Str, cs: seq<Str>)
    requires |cs| > 1 && Enterable(d) && Find(d.entries, cs[0]).Some? && NormalName(cs[0])
    ensures var n, child := Find(d.entries, cs[0]).value, JoinRel(rel, cs[0]);
      SkipsAt(r, d, rel, cs) <==>
      !r.excluded(child, cs[0], n.Dir?) && !(n.Dir? && n.id in r.forbidden) && SkipsAt(r, n, child, cs[1..])
  {
    var up := cs[..|cs| - 1];
    NodeAtStep(r, d, rel, up);
    assert up[0] == cs[0] && up[1..] == cs[1..][..|cs[1..]| - 1];
    JoinRelIsNotRoot(rel, cs[0]);
    DeeperName(rel, cs);
  }

  lemma {:induction false} SkippedInIff(r: Rules, d: Node, rel: Str, cs: seq<Str>)
    requires WellFormed(d) && Enterable(d) && |cs| >= 1
    ensures cs in SkippedIn(r, d.entries, rel) <==> SkipsAt(r, d, rel, cs)
    decreases |cs|
  {
    var name := cs[0];
    OnlyItsEntry(r, d.entries, rel, cs);
    if Find(d.entries, name).Some? {
      var n := Find(d.entries, name).value;
      FoundIsWellFormed(d.entries, name);
      InEntry(r, Entry(name, n), rel, cs);
      if |cs| == 1 {
        assert cs[..0] == [] && Pre(rel) + Join(cs) == JoinRel(rel, name);
      } else {
        SkipsDeeper(r, d, rel, cs);
        if Enterable(n) {
          SkippedInIff(r, n, JoinRel(rel, name), cs[1..]);
        } else {
          NotBelow(r, n, JoinRel(rel, name), cs[1..]);
        }
      }
    } else if |cs| > 1 {
      NodeAtStep(r, d, rel, cs[..|cs| - 1]);
    } else {
      assert cs[..0] == [];
    }
  }

  lemma NotBelow(r: Rules, n: Node, rel: Str, cs: seq<Str>)
    requires |cs| >= 1 && !Enterable(n)
    ensures !SkipsAt(r, n, rel, cs)
  {
    if |cs| > 1 {
      NodeAtStep(r, n, rel, cs[..|cs| - 1]);
    } else {
      assert cs[..0] == [];
    }
  }

  /** A walk skips as many entries as there are to skip; a full scan that ends stores their number. */
  lemma SkippedCount(s: Source, r: Rules, root: Node, confirm: Confirm, stamp: Stamp, skips: set<seq<Str>>)
    requires WellFormed(root) && Scan(s, r, root, confirm, stamp).Some?
    requires forall cs :: cs in skips <==> cs != [] && SkipsAt(r, root, ROOT, cs)
    ensures Scan(s, r, root, confirm, stamp).value.stats.skipped == |skips|
  {
    LookIsExact(s, r, root, confirm);
    EntriesCount(r, root.entries, ROOT);
    forall cs ensures cs in skips <==> cs in SkippedIn(r, root.entries, ROOT) {
      if cs != [] {
        SkippedInIff(r, root, ROOT, cs);
      } else if cs in SkippedIn(r, root.entries, ROOT) {
        SkippedBegin(r, root.entries, ROOT, cs);
      }
    }
    assert skips == SkippedIn(r, root.entries, ROOT);
  }
}
