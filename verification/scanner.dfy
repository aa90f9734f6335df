/** The scanner as it runs: the state of one scan, filled by the walk file by file, and the writes
    to the catalog in batches and one final transaction. The process may stop after any batch. */
module Scanner {
  import opened Wrappers
  import opened Bytes
  import opened Paths
  import opened Tree
  import opened Groups
  import opened Catalog
  import opened CatalogStats
  import opened FullScan
  import opened Targets
  import opened Refinement

  /** The catalog tables of one source. Each assignment to rows is one committed transaction. The
      statistics are SQL aggregates over the rows; they are kept as the function that states them. */
  class Store {
    const id: nat
    var rows: Rows
    var scanSeq: nat
    ghost var stats: Stats

    constructor (id: nat)
      ensures this.id == id && rows == map[] && scanSeq == 0
    {
      this.id := id;
      rows, scanSeq := map[], 0;
      stats := Stats(0, 0, 0, 0, 0, 0);
    }

    ghost function State(): Source
      reads this
    {
      Source(id, rows, scanSeq, stats)
    }
  }

  class ScanRun {
    const store: Store
    const rules: Rules
    const confirm: Confirm
    const stamp: Stamp
    const batchSize: nat
    /** The process may stop after any batch. */
    const stops: bool

    var lookup: seq<Walked>
    var pending: seq<Walked>
    var seen: seq<Str>
    var links: Links
    var groups: seq<Group>
    var unreadable: seq<Str>
    var files: nat
    var skipped: nat
    /** Everything the read-only part has seen so far, and which of its files were looked up. */
    ghost var trace: Walk
    ghost var done: seq<Walked>

    /** The files looked up are sorted into pending and seen; the others wait in lookup. */
    ghost predicate Valid()
      reads this, store
    {
      && batchSize > 0
      && trace.Seen? && trace.files == done + lookup
      && pending == Pending(store.rows, done) && seen == Unchanged(store.rows, done)
      && links == LinksOf(trace.files)
      && unreadable == trace.unreadable && skipped == trace.skipped
    }

    constructor (store: Store, rules: Rules, confirm: Confirm, stamp: Stamp, batchSize: nat, stops: bool)
      requires batchSize > 0
      ensures Valid() && this.store == store && this.rules == rules && this.confirm == confirm
      ensures this.stamp == stamp && this.batchSize == batchSize && this.stops == stops
      ensures trace == NOTHING && groups == [] && lookup == [] && files == 0
    {
      this.store, this.rules, this.confirm, this.stamp := store, rules, confirm, stamp;
      this.batchSize, this.stops := batchSize, stops;
      lookup, pending, seen, links, groups, unreadable := [], [], [], map[], [], [];
      files, skipped, trace, done := 0, 0, NOTHING, [];
    }

    /** The read-only part of a scan has added w. */
    twostate predicate Added(w: Walk)
      reads this, store
    {
      && Valid() && store.rows == old(store.rows) && groups == old(groups)
      && w.Seen? && trace == Then(old(trace), w) && files == old(files) + |w.files|
    }

    method FlushLookup()
      requires Valid()
      modifies this
      ensures Valid() && lookup == []
      ensures trace == old(trace) && files == old(files) && groups == old(groups)
    {
      pending, seen := CompareFiles(store.rows, lookup, pending, seen, done);
      done := done + lookup;
      lookup := [];
    }

    method AddFile(rel: Str, m: Meta)
      requires Valid()
      modifies this
      ensures Added(Seen([Walked(rel, m)], [], 0))
    {
      Append(Walked(rel, m));
      if |lookup| >= batchSize {
        FlushLookup();
      }
    }

    method Append(w: Walked)
      requires Valid()
      modifies this
      ensures Added(Seen([w], [], 0))
    {
      Associative2(done, lookup, [w]);
      files := files + 1;
      links := AddLink(links, w);
      lookup := lookup + [w];
      AppendToTrace(w);
    }

    /** Records in the trace the file just added. */
    ghost method AppendToTrace(w: Walked)
      requires batchSize > 0 && trace.Seen? && lookup != []
      requires trace.files + [w] == done + lookup
      requires pending == Pending(store.rows, done) && seen == Unchanged(store.rows, done)
      requires links == AddLink(LinksOf(trace.files), w)
      requires unreadable == trace.unreadable && skipped == trace.skipped
      modifies `trace
      ensures Valid() && trace == Then(old(trace), Seen([w], [], 0))
    {
      LinksOfAppend(trace.files, w);
      assert trace.unreadable + [] == trace.unreadable;
      trace := Then(trace, Seen([w], [], 0));
    }

    /** Records in the trace what was just added besides files. */
    ghost method AddOther(w: Walk)
      requires w.Seen? && w.files == []
      requires trace.Seen? && ValidUpTo(w)
      modifies `trace
      ensures Valid() && trace == Then(old(trace), w)
    {
      assert trace.files + [] == trace.files;
      trace := Then(trace, w);
    }

    /** Valid, but for w, which is added and not yet in the trace. */
    ghost predicate ValidUpTo(w: Walk)
      requires trace.Seen? && w.Seen?
      reads this, store
    {
      && batchSize > 0
      && trace.files == done + lookup
      && pending == Pending(store.rows, done) && seen == Unchanged(store.rows, done)
      && links == LinksOf(trace.files)
      && unreadable == trace.unreadable + w.unreadable && skipped == trace.skipped + w.skipped
    }

    method DirFailed(access: Access, rel: Str) returns (ok: bool)
      requires Valid() && !access.Readable?
      modifies this
      ensures ok <==> DirError(access, rel).Seen?
      ensures ok ==> Added(DirError(access, rel))
      ensures !ok ==> Valid()
    {
      if access.FatalIO? || rel == ROOT {
        return false;
      }
      if !access.Vanished? {
        unreadable := unreadable + [rel];
      }
      AddOther(DirError(access, rel));
      return true;
    }

    /** walkDir: catalogs the folder d, recursing into its folders. */
    method WalkDir(d: Node, rel: Str) returns (ok: bool)
      requires Valid() && d.Dir?
      modifies this
      ensures ok <==> Tree.WalkDir(rules, d, rel).Seen?
      ensures ok ==> Added(Tree.WalkDir(rules, d, rel))
      decreases d, 0
    {
      if d.access != Readable {
        ok := DirFailed(d.access, rel);
        return;
      }
      if d.key.KeyFatal? {
        return false;
      }
      if d.key.Listed? {
        skipped := skipped + 1;
        AddOther(Seen([], [], 1));
        return true;
      }
      ok := WalkListing(d.entries, rel, WalkEntries(rules, d.entries, rel));
    }

    /** The entries of a folder in turn; all is what they give. */
    method WalkListing(es: seq<Entry>, rel: Str, ghost all: Walk) returns (ok: bool)
      requires Valid() && all == WalkEntries(rules, es, rel)
      modifies this
      ensures ok <==> all.Seen?
      ensures ok ==> Added(all)
      decreases es, 2
    {
      AddOther(NOTHING);
      ghost var acc, rest := NOTHING, all;
      assert es[0..] == es;
      NothingThen(all);
      for i := 0 to |es|
        invariant Added(acc) && all == Then(acc, rest) && rest == WalkEntries(rules, es[i..], rel)
      {
        WalkEntriesStep(rules, es, i, rel);
        ghost var w := WalkEntry(rules, es[i], rel);
        ok := VisitEntry(es[i], rel, w);
        if !ok {
          return;
        }
        rest := WalkEntries(rules, es[i + 1..], rel);
        ThenAssociative(acc, w, rest);
        ThenAssociative(old(trace), acc, w);
        acc := Then(acc, w);
      }
      assert es[|es|..] == [];
      ThenNothing(acc);
      return true;
    }

    /** One entry of a folder, as walkDir and enterDir treat it. */
    method VisitEntry(e: Entry, rel: Str, ghost all: Walk) returns (ok: bool)
      requires Valid() && all == WalkEntry(rules, e, rel)
      modifies this
      ensures ok <==> all.Seen?
      ensures ok ==> Added(all)
      decreases e, 1
    {
      var child := JoinRel(rel, e.name);
      match e.node {
        case Fatal => return false;
        case Missing => AddOther(NOTHING); return true;
        case Broken => AddOther(NOTHING); return true;
        case File(m) =>
          if rules.excluded(child, e.name, false) {
            AddOther(NOTHING);
          } else {
            AddFile(child, m);
          }
          return true;
        case Special =>
          if rules.excluded(child, e.name, false) {
            AddOther(NOTHING);
          } else {
            skipped := skipped + 1;
            AddOther(Seen([], [], 1));
          }
          return true;
        case Dir(_, _, _, _) =>
          ok := EnterDir(e.node, child, e.name);
      }
    }

    method EnterDir(d: Node, rel: Str, name: Str) returns (ok: bool)
      requires Valid() && d.Dir?
      modifies this
      ensures ok <==> Tree.EnterDir(rules, d, rel, name).Seen?
      ensures ok ==> Added(Tree.EnterDir(rules, d, rel, name))
      decreases d, 1
    {
      if rules.excluded(rel, name, true) {
        AddOther(NOTHING);
        return true;
      }
      if d.id in rules.forbidden {
        skipped := skipped + 1;
        AddOther(Seen([], [], 1));
        return true;
      }
      ok := WalkDir(d, rel);
    }

    // ---- Groups, batches, and the final transaction ----

    /** buildGroups: the planned groups, on a FUSE source only those confirmed. */
    method BuildGroups() returns (ok: bool)
      requires Valid() && DistinctBy(RelOf, trace.files)
      modifies this
      ensures Valid() && trace == old(trace) && lookup == old(lookup) && files == old(files)
      ensures ok <==> ConfirmAll(confirm, Plan(LinksOf(trace.files))).Some?
      ensures ok ==> groups == ConfirmAll(confirm, Plan(LinksOf(trace.files))).value
    {
      var planned, split := PlanGroups(links, trace.files);
      var kept := ConfirmGroups(confirm, planned);
      if kept.None? {
        return false;
      }
      groups := kept.value;
      return true;
    }

    /** commit: the changed rows, then the stamps of the unchanged ones, batchSize rows a transaction.
        false: the process stopped after a batch. */
    method Commit() returns (ok: bool)
      requires Valid() && lookup == []
      modifies store`rows
      ensures ok ==> store.rows == Committed(old(store.rows), trace.files, stamp)
      ensures !ok ==> stops && CommittedPart(old(store.rows), trace.files, stamp, store.rows)
    {
      ghost var rows := store.rows;
      assert done == trace.files;
      var i := 0;
      while i < |pending|
        invariant i <= |pending|
        invariant store.rows == UpsertAll(rows, pending[..i], stamp)
      {
        var end := if i + batchSize < |pending| then i + batchSize else |pending|;
        var tx := store.rows;
        tx := UpsertBatch(tx, pending, i, end, stamp, rows);
        store.rows := tx;
        i := end;
        var stop: bool := *;
        if stops && stop {
          PartOf(rows, trace.files, stamp, i, 0, store.rows);
          return false;
        }
      }
      assert pending[..|pending|] == pending && seen[..0] == [];
      TouchNone(store.rows, stamp);
      var j := 0;
      while j < |seen|
        invariant j <= |seen|
        invariant store.rows == TouchAll(UpsertAll(rows, pending, stamp), seen[..j], stamp)
      {
        var end := if j + batchSize < |seen| then j + batchSize else |seen|;
        TouchMore(UpsertAll(rows, pending, stamp), seen[..j], seen[j..end], stamp);
        assert seen[..j] + seen[j..end] == seen[..end];
        store.rows := TouchAll(store.rows, seen[j..end], stamp);
        j := end;
        var stop: bool := *;
        if stops && stop {
          PartOf(rows, trace.files, stamp, |pending|, j, store.rows);
          return false;
        }
      }
      assert seen[..|seen|] == seen;
      return true;
    }

    /** The body of a final transaction: mark the rows gone, clear groups, store this scan's groups. */
    method FinalRows(scope: Str -> bool, cleared: set<Str>, seqNo: nat) returns (rows: Rows)
      ensures rows == Catalog.Finish(store.rows, stamp, unreadable, scope, cleared, groups, store.id, seqNo)
    {
      var gone := Gone(store.rows, stamp, unreadable, scope);
      rows := ClearGroups(MarkGone(store.rows, gone, stamp), cleared);
      ghost var start := rows;
      for n := 0 to |groups|
        invariant rows == AssignGroups(start, groups[..n], store.id, seqNo)
      {
        assert groups[..n + 1][..n] == groups[..n];
        rows := AssignGroup(rows, groups[n], GroupId(store.id, seqNo, n + 1));
      }
      assert groups[..|groups|] == groups;
    }

    /** finish. */
    method Finish()
      requires trace.Seen? && unreadable == trace.unreadable && skipped == trace.skipped
      modifies store
      ensures store.State() == FinishFull(old(store.State()), old(store.rows), trace, groups, stamp)
    {
      var rows := FinalRows(Everywhere, store.rows.Keys, store.scanSeq + 1);
      store.rows, store.scanSeq := rows, store.scanSeq + 1;
      store.stats := ComputeStats(rows, skipped);
    }

    /** Whether the catalog has live rows. */
    method AnyLive() returns (live: bool)
      ensures live <==> LiveSet(store.rows) != {}
    {
      live := exists p | p in store.rows :: Live(store.rows, p);
      if live {
        var p :| p in store.rows && Live(store.rows, p);
        assert p in LiveSet(store.rows);
      }
    }

    /** openRoot, loadForbidden and the walk of the whole source; all is what the walk gives. */
    method WalkRoot(root: Node, ghost all: Walk) returns (ok: bool)
      requires Valid() && trace == NOTHING && lookup == [] && files == 0
      requires all == if RootOk(rules, root) then Tree.WalkDir(rules, root, ROOT) else Refused
      modifies this
      ensures ok <==> all.Seen?
      ensures ok ==> Valid() && files == |trace.files| && lookup == [] && trace == all
    {
      if !(root.Dir? && root.id !in rules.forbidden && root.key.NoKey?) {
        return false;
      }
      ok := WalkDir(root, ROOT);
      if ok {
        NothingThen(all);
        FlushLookup();
      }
    }

    /** The read-only part of a full scan; false is a refused scan. */
    method LookAround(root: Node, ghost look: Option<(Walk, seq<Group>)>) returns (ok: bool)
      requires Valid() && trace == NOTHING && lookup == [] && files == 0 && WellFormed(root)
      requires look == Look(store.State(), rules, root, confirm)
      modifies this
      ensures ok <==> look.Some?
      ensures ok ==> Valid() && lookup == [] && look == Some((trace, groups))
    {
      var live := AnyLive();
      ghost var all := if RootOk(rules, root) then Tree.WalkDir(rules, root, ROOT) else Refused;
      ok := WalkRoot(root, all);
      if !ok {
        return;
      }
      WalkedRootIsEnterable(rules, root);
      WalkFilesDistinct(rules, root);
      if files == 0 && live {
        assert trace.files == [];
        return false;
      }
      assert !LooksUnmounted(store.rows, trace.files);
      ok := BuildGroups();
    }

    // ---- A targeted scan ----

    /** goneTarget: gone, unless the folder is empty while the catalog lists other files in it. */
    method GoneTarget(d: Node, rel: Str, t: Str) returns (state: State)
      requires d.Dir?
      ensures Targets.GoneTarget(store.rows, d, rel, t) == Some(Visit(state, NOTHING))
    {
      if d.entries != [] {
        return GoneAway;
      }
      state := if LiveUnderExcept(store.rows, rel, t) then KeptBack else GoneAway;
    }

    /** The last name of a target, in its opened folder; visit is what it gives. */
    method WalkLeaf(d: Node, rel: Str, name: Str, t: Str, ghost visit: Option<Visit>) returns (ok: bool, state: State)
      requires Valid() && d.Dir? && visit == VisitLeaf(store.rows, rules, d, rel, name, t)
      modifies this
      ensures ok <==> visit.Some?
      ensures ok ==> state == visit.value.state && Added(visit.value.walk)
    {
      var found := Find(d.entries, name);
      if found.None? || found.value.Missing? {
        AddOther(NOTHING);
        state := GoneTarget(d, rel, t);
        return true, state;
      }
      match found.value {
        case Fatal => return false, Dropped;
        case Broken => AddOther(NOTHING); return true, Dropped;
        case Special => AddOther(NOTHING); return true, Scanned;
        case File(m) =>
          if rules.excluded(t, name, false) {
            AddOther(NOTHING);
          } else {
            AddFile(t, m);
          }
          return true, Scanned;
        case Dir(_, _, _, _) =>
          var before := |unreadable|;
          ok := EnterDir(found.value, t, name);
          if !ok {
            return false, Dropped;
          }
          state := if t in unreadable[before..] then Dropped else Scanned;
      }
    }

    /** walkTarget: t, name by name from the root; visit is what it gives. */
    method WalkTarget(root: Node, t: Str, ghost visit: Option<Visit>) returns (ok: bool, state: State)
      requires Valid() && root.Dir? && visit == VisitTarget(store.rows, rules, root, t)
      modifies this
      ensures ok <==> visit.Some?
      ensures ok ==> state == visit.value.state && Added(visit.value.walk)
    {
      if Blocked(root).Some? {
        AddOther(NOTHING);
        return Blocked(root).value.Some?, Dropped;
      }
      var cs := Split(t);
      var d, rel, i := root, ROOT, 0;
      assert cs[0..] == cs;
      while i < |cs| - 1
        invariant 0 <= i < |cs| && d.Dir?
        invariant Valid() && trace == old(trace) && files == old(files) && groups == old(groups)
        invariant visit == VisitFrom(store.rows, rules, d, rel, cs[i..], t)
        decreases |cs| - i
      {
        assert cs[i..][0] == cs[i] && cs[i..][1..] == cs[i + 1..];
        var blocked, fatal, next := EnterFolder(store.rows, rules, d, rel, cs[i..], t);
        if blocked {
          AddOther(NOTHING);
          return !fatal, Dropped;
        }
        d, rel, i := next, JoinRel(rel, cs[i]), i + 1;
      }
      assert cs[i..] == [cs[i]];
      ok, state := WalkLeaf(d, rel, cs[i], t, visit);
    }

    /** The targets in turn; all is what they give. */
    method WalkTargets(root: Node, ts: seq<Str>, ghost all: Option<(seq<Target>, Walk)>)
      returns (ok: bool, out: seq<Target>)
      requires Valid() && root.Dir? && trace == NOTHING && all == VisitAll(store.rows, rules, root, ts)
      modifies this
      ensures ok <==> all.Some?
      ensures ok ==> Valid() && all == Some((out, trace))
    {
      out := [];
      for i := 0 to |ts|
        invariant Valid() && VisitAll(store.rows, rules, root, ts[..i]) == Some((out, trace))
      {
        assert ts[..i + 1][..i] == ts[..i];
        ghost var visit := VisitTarget(store.rows, rules, root, ts[i]);
        var state: State;
        ok, state := WalkTarget(root, ts[i], visit);
        if !ok {
          VisitAllRefused(store.rows, rules, root, ts, i + 1);
          return;
        }
        out := out + [Target(ts[i], state)];
      }
      assert ts[..|ts|] == ts;
      return true, out;
    }

    /** The partners join the files to look up and the candidates. */
    method AddPartners(partners: seq<Walked>)
      requires Valid()
      modifies this
      ensures Valid() && groups == old(groups) && trace == Then(old(trace), Seen(partners, [], 0))
    {
      AddOther(NOTHING);
      ghost var before := old(trace);
      ThenNothing(before);
      for i := 0 to |partners|
        invariant Valid() && groups == old(groups) && trace == Then(before, Seen(partners[..i], [], 0))
      {
        assert partners[..i + 1] == partners[..i] + [partners[i]];
        ThenAssociative(before, Seen(partners[..i], [], 0), Seen([partners[i]], [], 0));
        assert Then(Seen(partners[..i], [], 0), Seen([partners[i]], [], 0)) == Seen(partners[..i + 1], [], 0);
        Append(partners[i]);
      }
      assert partners[..|partners|] == partners;
    }

    /** The read-only part of a targeted scan: the targets, then the partners, then the groups. */
    method LookAtTargets(root: Node, ts: seq<Str>, ghost look: Option<Found>)
      returns (ok: bool, out: seq<Target>, partners: seq<Walked>)
      requires Valid() && trace == NOTHING && lookup == [] && WellFormed(root) && TargetList(ts)
      requires look == LookTargets(store.State(), rules, root, confirm, ts)
      modifies this
      ensures ok <==> look.Some?
      ensures ok ==> Valid() && lookup == []
      ensures ok ==> look.value.walk.Seen? && look == Some(Found(out, look.value.walk, partners, groups))
      ensures ok ==> trace.files == look.value.walk.files + partners && unreadable == look.value.walk.unreadable
    {
      out, partners := [], [];
      if !(root.Dir? && root.id !in rules.forbidden && root.key.NoKey?) {
        return false, out, partners;
      }
      ghost var s := store.State();
      ok, out := WalkTargets(root, ts, VisitAll(s.rows, rules, root, ts));
      if !ok {
        return;
      }
      FlushLookup();
      ghost var w := trace;
      var scopes := Scopes(out);
      LinksNonempty(w.files);
      var found := NominatePartners(store.rows, scopes, rules, root, links);
      if found.None? {
        return false, out, partners;
      }
      partners := found.value;
      SeenIsExact(s.rows, rules, root, ts, out, w, partners);
      AddPartners(partners);
      assert trace.unreadable == w.unreadable;
      FlushLookup();
      ok := BuildGroups();
    }

    /** finishTargets. */
    method FinishTargets(ghost f: Found, scopes: seq<Str>, partners: seq<Walked>)
      requires f.walk.Seen? && unreadable == f.walk.unreadable && scopes == Scopes(f.out) && partners == f.partners &&
        groups == f.groups
      modifies store
      ensures store.State() == Targets.FinishTargets(old(store.State()), old(store.rows), f, stamp)
    {
      var rows := FinishTargetRows(store.rows, stamp, unreadable, scopes, partners, groups, store.id,
        store.scanSeq + 1);
      store.rows, store.scanSeq := rows, store.scanSeq + 1;
      store.stats := ComputeStats(rows, store.stats.skipped);
    }

    /** The writes of a targeted scan that found f; false: the process stopped after a batch. */
    method WriteTargets(ghost f: Found, out: seq<Target>, partners: seq<Walked>) returns (ok: bool)
      requires Valid() && lookup == [] && f.walk.Seen? && f == Found(out, f.walk, partners, groups)
      requires trace.files == f.walk.files + partners && unreadable == f.walk.unreadable
      modifies store
      ensures ok ==> store.State() == if Scopes(out) == [] then old(store.State())
        else Targets.FinishTargets(old(store.State()), Committed(old(store.rows), f.walk.files + f.partners, stamp), f,
          stamp)
      ensures !ok ==> stops && Scopes(out) != []
      ensures !ok ==> CommittedPart(old(store.rows), f.walk.files + f.partners, stamp, store.rows)
      ensures !ok ==> store.State() == old(store.State()).(rows := store.rows)
    {
      var scopes := Scopes(out);
      if scopes == [] {
        return true;
      }
      ghost var s := store.State();
      ok := Commit();
      if ok {
        FinishTargetsOf(s, store.rows, store.rows, f, stamp);
        assert store.State() == s.(rows := store.rows);
        FinishTargets(f, scopes, partners);
      }
    }

    /** runTargets. When it returns true the catalog is what the targeted scan leaves and out says what
        became of each target; otherwise the scan was refused or stopped before its final transaction. */
    method RunTargets(root: Node, ts: seq<Str>) returns (ok: bool, out: seq<Target>)
      requires Valid() && trace == NOTHING && lookup == [] && WellFormed(root) && TargetList(ts)
      modifies this, store
      ensures ok ==> ScanPaths(old(store.State()), rules, root, confirm, ts, stamp) == Some((out, store.State()))
      ensures !ok ==> InterruptedPaths(old(store.State()), rules, root, confirm, ts, stamp, store.State())
      ensures !ok && !stops ==>
        store.State() == old(store.State()) && ScanPaths(store.State(), rules, root, confirm, ts, stamp).None?
    {
      ghost var s := store.State();
      ghost var look := LookTargets(s, rules, root, confirm, ts);
      var partners: seq<Walked>;
      ok, out, partners := LookAtTargets(root, ts, look);
      if !ok {
        assert CutOffPaths(s, rules, root, confirm, ts, stamp, 0, 0, s);
        return;
      }
      ok := WriteTargets(look.value, out, partners);
      if !ok {
        PartIsInterruptedPaths(s, rules, root, confirm, ts, stamp, store.State(), look.value);
      }
    }

    /** run: a full scan. When it returns true the catalog is what the full scan leaves; otherwise the
        scan was refused or stopped before its final transaction. */
    method Run(root: Node) returns (ok: bool)
      requires Valid() && trace == NOTHING && lookup == [] && files == 0 && WellFormed(root)
      modifies this, store
      ensures ok ==> Scan(old(store.State()), rules, root, confirm, stamp) == Some(store.State())
      ensures !ok ==> Interrupted(old(store.State()), rules, root, confirm, stamp, store.State())
      ensures !ok && !stops ==>
        store.State() == old(store.State()) && Scan(store.State(), rules, root, confirm, stamp).None?
    {
      ghost var s := store.State();
      ghost var look := Look(s, rules, root, confirm);
      ok := LookAround(root, look);
      if !ok {
        NothingDone(s, rules, root, confirm, stamp);
        return;
      }
      ok := WriteScan(look);
      if !ok {
        PartIsInterrupted(s, rules, root, confirm, stamp, store.State());
      }
    }

    /** The writes of a full scan; false: the process stopped after a batch. */
    method WriteScan(ghost look: Option<(Walk, seq<Group>)>) returns (ok: bool)
      requires Valid() && lookup == [] && look == Some((trace, groups))
      modifies store
      ensures ok ==>
        var (w, gs) := look.value;
        store.State() == FinishFull(old(store.State()), Committed(old(store.rows), w.files, stamp), w, gs, stamp)
      ensures !ok ==> stops && CommittedPart(old(store.rows), look.value.0.files, stamp, store.rows)
      ensures !ok ==> store.State() == old(store.State()).(rows := store.rows)
    {
      ghost var s := store.State();
      ok := Commit();
      if ok {
        FinishFullOf(s, store.rows, store.rows, trace, groups, stamp);
        assert store.State() == s.(rows := store.rows);
        Finish();
      }
    }
  }

  /** flushLookup's comparison of the waiting files with their rows. */
  method CompareFiles(rows: Rows, waiting: seq<Walked>, pending0: seq<Walked>, seen0: seq<Str>, ghost done: seq<Walked>)
    returns (pending: seq<Walked>, seen: seq<Str>)
    requires pending0 == Pending(rows, done) && seen0 == Unchanged(rows, done)
    ensures pending == Pending(rows, done + waiting) && seen == Unchanged(rows, done + waiting)
  {
    pending, seen := pending0, seen0;
    ghost var all := done;
    for i := 0 to |waiting|
      invariant pending == Pending(rows, all) && seen == Unchanged(rows, all)
      invariant all == done + waiting[..i]
    {
      var w := waiting[i];
      SortedIn(rows, all, w);
      all := all + [w];
      var isNew := w.rel !in rows || rows[w.rel].deletedAt.Some?;
      if isNew || rows[w.rel].m != w.m {
        pending := pending + [w];
      } else {
        seen := seen + [w.rel];
      }
    }
    assert waiting[..|waiting|] == waiting;
  }

  /** The check of each planned group. */
  method ConfirmGroups(confirm: Confirm, planned: seq<Group>) returns (r: Option<seq<Group>>)
    ensures r == ConfirmAll(confirm, planned)
  {
    var kept: seq<Group> := [];
    for n := 0 to |planned|
      invariant ConfirmAll(confirm, planned[..n]) == Some(kept)
    {
      assert planned[..n + 1][..n] == planned[..n];
      match confirm(planned[n]) {
        case None =>
          ConfirmRefused(confirm, planned, n);
          return None;
        case Some(keep) =>
          if keep {
            kept := kept + [planned[n]];
          }
      }
    }
    assert planned[..|planned|] == planned;
    return Some(kept);
  }

  /** The statements of one transaction of changed rows. */
  method UpsertBatch(rows: Rows, pending: seq<Walked>, i: nat, end: nat, stamp: Stamp, ghost start: Rows)
    returns (tx: Rows)
    requires i <= end <= |pending| && rows == UpsertAll(start, pending[..i], stamp)
    ensures tx == UpsertAll(start, pending[..end], stamp)
  {
    tx := rows;
    for k := i to end
      invariant tx == UpsertAll(start, pending[..k], stamp)
    {
      assert pending[..k + 1][..k] == pending[..k];
      tx := Upsert(tx, pending[k], stamp);
    }
  }

  lemma ConfirmRefused(confirm: Confirm, groups: seq<Group>, n: nat)
    requires n < |groups| && confirm(groups[n]).None?
    ensures ConfirmAll(confirm, groups).None?
  {
    if n < |groups| - 1 { ConfirmRefused(confirm, groups[..|groups| - 1], n); }
  }

  /** rows' is what some batches of a scan made of rows. */
  ghost predicate CommittedPart(rows: Rows, ws: seq<Walked>, stamp: Stamp, rows': Rows) {
    exists i: nat, j: nat ::
      i <= |Pending(rows, ws)| && j <= |Unchanged(rows, ws)| && rows' == CommitPrefix(rows, ws, stamp, i, j)
  }

  lemma PartOf(rows: Rows, ws: seq<Walked>, stamp: Stamp, i: nat, j: nat, rows': Rows)
    requires i <= |Pending(rows, ws)| && j <= |Unchanged(rows, ws)|
    requires var up := UpsertAll(rows, Pending(rows, ws)[..i], stamp);
      rows' == if j == 0 then up else TouchAll(up, Unchanged(rows, ws)[..j], stamp)
    ensures CommittedPart(rows, ws, stamp, rows')
  {
    TouchNone(UpsertAll(rows, Pending(rows, ws)[..i], stamp), stamp);
    assert Unchanged(rows, ws)[..0] == [];
    assert rows' == CommitPrefix(rows, ws, stamp, i, j);
  }

  lemma TouchNone(rows: Rows, stamp: Stamp)
    ensures TouchAll(rows, [], stamp) == rows
  {
  }

  lemma TouchMore(rows: Rows, a: seq<Str>, b: seq<Str>, stamp: Stamp)
    ensures TouchAll(TouchAll(rows, a, stamp), b, stamp) == TouchAll(rows, a + b, stamp)
  {
  }

  ghost predicate Interrupted(s: Source, r: Rules, root: Node, confirm: Confirm, stamp: Stamp, s': Source) {
    exists i: nat, j: nat :: CutOff(s, r, root, confirm, stamp, i, j, s')
  }

  lemma NothingDone(s: Source, r: Rules, root: Node, confirm: Confirm, stamp: Stamp)
    requires Look(s, r, root, confirm).None?
    ensures Interrupted(s, r, root, confirm, stamp, s)
  {
    assert CutOff(s, r, root, confirm, stamp, 0, 0, s);
  }

  lemma PartIsInterrupted(s: Source, r: Rules, root: Node, confirm: Confirm, stamp: Stamp, s': Source)
    requires Look(s, r, root, confirm).Some?
    requires CommittedPart(s.rows, Look(s, r, root, confirm).value.0.files, stamp, s'.rows) && s' == s.(rows := s'.rows)
    ensures Interrupted(s, r, root, confirm, stamp, s')
  {
    var ws := Look(s, r, root, confirm).value.0.files;
    var i: nat, j: nat :| i <= |Pending(s.rows, ws)| && j <= |Unchanged(s.rows, ws)| &&
      s'.rows == CommitPrefix(s.rows, ws, stamp, i, j);
    assert CutOff(s, r, root, confirm, stamp, i, j, s');
  }

  lemma NothingThen(w: Walk)
    ensures Then(NOTHING, w) == w
  {
  }

  // ---- The read-only steps of a targeted scan that touch no scan state ----

  /** One folder on the way to a target: dropped there, a failing mount, or the next folder. */
  method EnterFolder(rows: Rows, r: Rules, d: Node, rel: Str, cs: seq<Str>, t: Str)
    returns (blocked: bool, fatal: bool, next: Node)
    requires d.Dir? && |cs| > 1
    ensures blocked ==> VisitFrom(rows, r, d, rel, cs, t) == if fatal then None else DROP
    ensures !blocked ==> next.Dir?
    ensures !blocked ==>
      VisitFrom(rows, r, d, rel, cs, t) == VisitFrom(rows, r, next, JoinRel(rel, cs[0]), cs[1..], t)
  {
    var found := Find(d.entries, cs[0]);
    if found == Some(Fatal) {
      return true, true, d;
    }
    if
      || found.None?
      || !found.value.Dir?
      || r.excluded(JoinRel(rel, cs[0]), cs[0], true)
      || found.value.id in r.forbidden
    {
      return true, false, d;
    }
    if Blocked(found.value).Some? {
      return true, Blocked(found.value).value.None?, d;
    }
    return false, false, found.value;
  }

  /** lstatPartner: rel, name by name from the root. */
  method LstatFile(r: Rules, root: Node, rel: Str) returns (st: Stat)
    requires root.Dir?
    ensures st == LstatPartner(r, root, rel)
  {
    if Blocked(root).Some? {
      return if Blocked(root).value.None? then StatFatal else NoFile;
    }
    var cs := Split(rel);
    var d, cur, i := root, ROOT, 0;
    assert cs[0..] == cs;
    while i < |cs| - 1
      invariant 0 <= i < |cs| && d.Dir?
      invariant LstatFrom(r, root, ROOT, cs) == LstatFrom(r, d, cur, cs[i..])
      decreases |cs| - i
    {
      var name := cs[i];
      var child := JoinRel(cur, name);
      assert cs[i..][0] == name && cs[i..][1..] == cs[i + 1..];
      var found := Find(d.entries, name);
      if found == Some(Fatal) {
        return StatFatal;
      }
      if found.None? || !found.value.Dir? || r.excluded(child, name, true) || found.value.id in r.forbidden {
        return NoFile;
      }
      if Blocked(found.value).Some? {
        return if Blocked(found.value).value.None? then StatFatal else NoFile;
      }
      d, cur, i := found.value, child, i + 1;
    }
    var leaf := cs[i];
    assert cs[i..] == [leaf];
    var found := Find(d.entries, leaf);
    if found == Some(Fatal) {
      return StatFatal;
    }
    if found.None? || !found.value.File? || r.excluded(JoinRel(cur, leaf), leaf, false) {
      return NoFile;
    }
    return IsFile(found.value.m);
  }

  /** relsWithInode: the live rows recorded with k, in path order. */
  method QueryInode(rows: Rows, k: DevIno) returns (rels: seq<Str>)
    ensures rels == RelsWithInode(rows, k)
  {
    rels := OrderByPath(set p | p in rows && Live(rows, p) && rows[p].m.Key() == k);
  }

  /** The rows of one inode in turn. */
  method NominateAmong(scopes: seq<Str>, r: Rules, root: Node, cands: seq<Walked>, rels: seq<Str>)
    returns (ps: Option<seq<Walked>>)
    requires root.Dir? && cands != []
    ensures ps == PartnersAmong(scopes, r, root, cands, rels)
  {
    var found: seq<Walked> := [];
    for i := 0 to |rels|
      invariant PartnersAmong(scopes, r, root, cands, rels[..i]) == Some(found)
    {
      assert rels[..i + 1][..i] == rels[..i];
      var rel := rels[i];
      if UnderAny(rel, scopes) || Mentions(cands, rel) {
        continue;
      }
      var st := LstatFile(r, root, rel);
      if st.StatFatal? {
        AmongRefused(scopes, r, root, cands, rels, i + 1);
        return None;
      }
      if st.IsFile? && st.m == cands[0].m {
        found := found + [Walked(rel, st.m)];
      }
    }
    assert rels[..|rels|] == rels;
    return Some(found);
  }

  lemma AmongRefused(scopes: seq<Str>, r: Rules, root: Node, cands: seq<Walked>, rels: seq<Str>, i: nat)
    requires root.Dir? && cands != [] && i <= |rels| && PartnersAmong(scopes, r, root, cands, rels[..i]).None?
    ensures PartnersAmong(scopes, r, root, cands, rels).None?
  {
    if i < |rels| {
      assert rels[..|rels| - 1][..i] == rels[..i];
      AmongRefused(scopes, r, root, cands, rels[..|rels| - 1], i);
    } else {
      assert rels[..i] == rels;
    }
  }

  /** nominatePartners: inode by inode, in (dev, ino) order. */
  method NominatePartners(rows: Rows, scopes: seq<Str>, r: Rules, root: Node, links: Links)
    returns (ps: Option<seq<Walked>>)
    requires root.Dir? && forall k :: k in links ==> links[k] != []
    ensures ps == Nominate(rows, scopes, r, root, links, links.Keys)
  {
    var found: seq<Walked> := [];
    var rest := links.Keys;
    AfterNothing(Nominate(rows, scopes, r, root, links, rest));
    while rest != {}
      invariant rest <= links.Keys
      invariant Nominate(rows, scopes, r, root, links, links.Keys) ==
        AfterFirst(found, Nominate(rows, scopes, r, root, links, rest))
      decreases rest
    {
      ghost var first := FirstKeyExists(rest);
      assert first in rest && IsFirst(rest, first);
      var k :| k in rest && IsFirst(rest, k);
      FirstKeyUnique(rest, k);
      var rels := QueryInode(rows, k);
      var more := NominateAmong(scopes, r, root, links[k], rels);
      if more.None? {
        return None;
      }
      AfterFirstMore(found, more.value, Nominate(rows, scopes, r, root, links, rest - {k}));
      found, rest := found + more.value, rest - {k};
    }
    assert found + [] == found;
    return Some(found);
  }

  function AfterFirst(first: seq<Walked>, rest: Option<seq<Walked>>): Option<seq<Walked>> {
    if rest.None? then None else Some(first + rest.value)
  }

  lemma AfterNothing(rest: Option<seq<Walked>>)
    ensures AfterFirst([], rest) == rest
  {
    if rest.Some? { assert [] + rest.value == rest.value; }
  }

  lemma AfterFirstMore(a: seq<Walked>, b: seq<Walked>, rest: Option<seq<Walked>>)
    ensures AfterFirst(a, AfterFirst(b, rest)) == AfterFirst(a + b, rest)
  {
    if rest.Some? { Associative2(a, b, rest.value); }
  }

  // ---- The final transaction of a targeted scan ----

  /** The rows of one target, by its key range: mark those gone, clear the groups of all. */
  method FinishTarget(rows: Rows, stamp: Stamp, unreadable: seq<Str>, t: Str) returns (r: Rows)
    ensures forall p :: (RowAt(r, p)
      == FinishRow(RowAt(rows, p), stamp, UnderUnreadable(p, unreadable), Under(p, t), Under(p, t), None))
  {
    var range := PrefixRange(t);
    var inRange := set p | p in rows && (p == t || InRange(p, range));
    var gone := set p | p in inRange && Live(rows, p) && rows[p].lastSeen != stamp && !UnderUnreadable(p, unreadable);
    r := ClearGroups(MarkGone(rows, gone, stamp), inRange);
    forall p ensures RowAt(r, p)
      == FinishRow(RowAt(rows, p), stamp, UnderUnreadable(p, unreadable), Under(p, t), Under(p, t), None)
    {
      PrefixRangeIsInside(t, p);
    }
  }

  /** finishTargets on the rows: target by target, then the partners, then this scan's groups. */
  method FinishTargetRows(rows: Rows, stamp: Stamp, unreadable: seq<Str>, scopes: seq<Str>, partners: seq<Walked>,
      groups: seq<Group>, id: nat, seqNo: nat) returns (r: Rows)
    ensures var scope := InScopesOf(scopes);
      r == Catalog.Finish(rows, stamp, unreadable, scope, Cleared(rows, scope, partners), groups, id, seqNo)
  {
    r := rows;
    for i := 0 to |scopes|
      invariant forall p :: (RowAt(r, p)
        == FinishRow(RowAt(rows, p), stamp, UnderUnreadable(p, unreadable), UnderAny(p, scopes[..i]),
          UnderAny(p, scopes[..i]), None))
    {
      var next := FinishTarget(r, stamp, unreadable, scopes[i]);
      forall p ensures RowAt(next, p)
        == FinishRow(RowAt(rows, p), stamp, UnderUnreadable(p, unreadable), UnderAny(p, scopes[..i + 1]),
          UnderAny(p, scopes[..i + 1]), None)
      {
        OneMoreScope(scopes, i, p);
      }
      r := next;
    }
    assert scopes[..|scopes|] == scopes;
    ghost var scope := InScopesOf(scopes);
    ghost var inScope := set p | p in rows && scope(p);
    ghost var marked := MarkGone(rows, Gone(rows, stamp, unreadable, scope), stamp);
    r := ClearGroups(r, RelsOf(partners));
    forall p ensures RowAt(r, p) == RowAt(ClearGroups(marked, inScope + RelsOf(partners)), p) {
      InScopesIsUnderAny(scopes, p);
    }
    SameRows(r, ClearGroups(marked, inScope + RelsOf(partners)));
    ghost var start := r;
    for n := 0 to |groups|
      invariant r == AssignGroups(start, groups[..n], id, seqNo)
    {
      assert groups[..n + 1][..n] == groups[..n];
      r := AssignGroup(r, groups[n], GroupId(id, seqNo, n + 1));
    }
    assert groups[..|groups|] == groups;
  }

  lemma VisitAllRefused(rows: Rows, r: Rules, root: Node, ts: seq<Str>, i: nat)
    requires root.Dir? && i <= |ts| && VisitAll(rows, r, root, ts[..i]).None?
    ensures VisitAll(rows, r, root, ts).None?
  {
    if i < |ts| {
      assert ts[..|ts| - 1][..i] == ts[..i];
      VisitAllRefused(rows, r, root, ts[..|ts| - 1], i);
    } else {
      assert ts[..i] == ts;
    }
  }

  ghost predicate InterruptedPaths(s: Source, r: Rules, root: Node, confirm: Confirm, ts: seq<Str>, stamp: Stamp,
      s': Source)
  {
    exists i: nat, j: nat :: CutOffPaths(s, r, root, confirm, ts, stamp, i, j, s')
  }

  lemma PartIsInterruptedPaths(s: Source, r: Rules, root: Node, confirm: Confirm, ts: seq<Str>, stamp: Stamp,
      s': Source, f: Found)
    requires LookTargets(s, r, root, confirm, ts) == Some(f) && f.walk.Seen? && Scopes(f.out) != []
    requires CommittedPart(s.rows, f.walk.files + f.partners, stamp, s'.rows) && s' == s.(rows := s'.rows)
    ensures InterruptedPaths(s, r, root, confirm, ts, stamp, s')
  {
    var ws := f.walk.files + f.partners;
    var i: nat, j: nat :| i <= |Pending(s.rows, ws)| && j <= |Unchanged(s.rows, ws)| &&
      s'.rows == CommitPrefix(s.rows, ws, stamp, i, j);
    assert CutOffPaths(s, r, root, confirm, ts, stamp, i, j, s');
  }

  lemma OneMoreScope(scopes: seq<Str>, i: nat, p: Str)
    requires i < |scopes|
    ensures UnderAny(p, scopes[..i + 1]) <==> UnderAny(p, scopes[..i]) || Under(p, scopes[i])
  {
    assert scopes[..i + 1] == scopes[..i] + [scopes[i]];
  }

  lemma SameRows(a: Rows, b: Rows)
    requires forall p :: RowAt(a, p) == RowAt(b, p)
    ensures a == b
  {
    forall p ensures p in a <==> p in b { assert RowAt(a, p) == RowAt(b, p); }
    forall p | p in a ensures a[p] == b[p] { assert RowAt(a, p) == RowAt(b, p); }
  }

  lemma WalkEntriesStep(r: Rules, es: seq<Entry>, i: nat, rel: Str)
    requires i < |es|
    ensures WalkEntries(r, es[i..], rel) == Then(WalkEntry(r, es[i], rel), WalkEntries(r, es[i + 1..], rel))
    ensures es[i] in es
  {
    assert es[i..][1..] == es[i + 1..];
  }

  lemma Associative2(a: seq<Walked>, b: seq<Walked>, c: seq<Walked>)
    ensures a + b + c == a + (b + c)
  {
  }

  lemma ThenNothing(a: Walk)
    ensures Then(a, NOTHING) == a
  {
  }

  lemma ThenAssociative(a: Walk, b: Walk, c: Walk)
    ensures Then(a, Then(b, c)) == Then(Then(a, b), c)
  {
    if a.Seen? && b.Seen? && c.Seen? {
      assert a.files + (b.files + c.files) == a.files + b.files + c.files;
      assert a.unreadable + (b.unreadable + c.unreadable) == a.unreadable + b.unreadable + c.unreadable;
    }
  }
}
