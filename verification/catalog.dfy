/** The catalog rows of one source and what a scan writes: batches of changed and unchanged rows,
    then one final transaction. */
module Catalog {
  import opened Wrappers
  import opened Bytes
  import opened Paths
  import opened Tree
  import opened Groups

  /** When a scan started, as its rows record it. */
  type Stamp = nat

  /** A row without its key (relPath): its metadata, hardlink group, when it was found gone (None is
      live) and the last scan that saw it. */
  datatype Row = Row(m: Meta, group: Option<Str>, deletedAt: Option<Stamp>, lastSeen: Stamp)

  type Rows = map<Str, Row>

  predicate Live(rows: Rows, p: Str) { p in rows && rows[p].deletedAt.None? }

  /** The live file at p, with its metadata. */
  function LiveMeta(rows: Rows, p: Str): Option<Meta> {
    if Live(rows, p) then Some(rows[p].m) else None
  }

  function RowAt(rows: Rows, p: Str): Option<Row> {
    if p in rows then Some(rows[p]) else None
  }

  // ---- What the walk found, compared with the rows ----

  function MetaAt(ws: seq<Walked>, p: Str): (r: Option<Meta>)
    ensures r.Some? ==> Walked(p, r.value) in ws
    ensures r.None? ==> forall w :: w in ws ==> w.rel != p
  {
    if ws == [] then None
    else
      var last := ws[|ws| - 1];
      assert ws == ws[..|ws| - 1] + [last];
      if last.rel == p then Some(last.m) else MetaAt(ws[..|ws| - 1], p)
  }

  /** flushLookup: a new, reappeared or changed file is written, another one only stamped. */
  predicate Differs(rows: Rows, w: Walked) {
    LiveMeta(rows, w.rel) != Some(w.m)
  }

  function Pending(rows: Rows, ws: seq<Walked>): seq<Walked> {
    if ws == [] then []
    else Pending(rows, ws[..|ws| - 1]) + if Differs(rows, ws[|ws| - 1]) then [ws[|ws| - 1]] else []
  }

  function Unchanged(rows: Rows, ws: seq<Walked>): seq<Str> {
    if ws == [] then []
    else Unchanged(rows, ws[..|ws| - 1]) + if Differs(rows, ws[|ws| - 1]) then [] else [ws[|ws| - 1].rel]
  }

  /** Every walked file is in one of the two. */
  lemma {:induction false} SortedHold(rows: Rows, ws: seq<Walked>)
    ensures forall w :: w in Pending(rows, ws) <==> w in ws && Differs(rows, w)
    ensures forall p :: p in Unchanged(rows, ws) <==> exists w :: w in ws && w.rel == p && !Differs(rows, w)
  {
    if ws != [] {
      var n := |ws| - 1;
      SortedHold(rows, ws[..n]);
      assert ws == ws[..n] + [ws[n]];
    }
  }

  lemma SortedIn(rows: Rows, ws: seq<Walked>, w: Walked)
    ensures Pending(rows, ws + [w]) == Pending(rows, ws) + if Differs(rows, w) then [w] else []
    ensures Unchanged(rows, ws + [w]) == Unchanged(rows, ws) + if Differs(rows, w) then [] else [w.rel]
  {
    assert (ws + [w])[..|ws|] == ws;
  }

  // ---- The batches ----

  /** upsertFile: the row loses its group and its deleted mark. */
  function Upsert(rows: Rows, w: Walked, stamp: Stamp): Rows {
    rows[w.rel := Row(w.m, None, None, stamp)]
  }

  function UpsertAll(rows: Rows, ws: seq<Walked>, stamp: Stamp): Rows {
    if ws == [] then rows else Upsert(UpsertAll(rows, ws[..|ws| - 1], stamp), ws[|ws| - 1], stamp)
  }

  /** UPDATE ... SET last_seen_at WHERE id IN (ps). */
  function TouchAll(rows: Rows, ps: seq<Str>, stamp: Stamp): Rows {
    map p | p in rows :: if p in ps then rows[p].(lastSeen := stamp) else rows[p]
  }

  /** The rows after the first i pending and the first j unchanged rows are committed. */
  function CommitPrefix(rows: Rows, ws: seq<Walked>, stamp: Stamp, i: nat, j: nat): Rows
    requires i <= |Pending(rows, ws)| && j <= |Unchanged(rows, ws)|
  {
    TouchAll(UpsertAll(rows, Pending(rows, ws)[..i], stamp), Unchanged(rows, ws)[..j], stamp)
  }

  /** The rows after every batch. */
  function Committed(rows: Rows, ws: seq<Walked>, stamp: Stamp): Rows {
    CommitPrefix(rows, ws, stamp, |Pending(rows, ws)|, |Unchanged(rows, ws)|)
  }

  lemma {:induction false} UpsertAllAt(rows: Rows, ws: seq<Walked>, stamp: Stamp, p: Str)
    ensures var r := UpsertAll(rows, ws, stamp);
      match MetaAt(ws, p)
      case Some(m) => p in r && r[p] == Row(m, None, None, stamp)
      case None => (p in r <==> p in rows) && (p in r ==> r[p] == rows[p])
  {
    if ws != [] { UpsertAllAt(rows, ws[..|ws| - 1], stamp, p); }
  }

  /** A row after a commit prefix: as it was; or, for a walked file, written or stamped. */
  lemma CommitPrefixAt(rows: Rows, ws: seq<Walked>, stamp: Stamp, i: nat, j: nat, p: Str)
    requires DistinctBy(RelOf, ws)
    requires i <= |Pending(rows, ws)| && j <= |Unchanged(rows, ws)|
    ensures var r := CommitPrefix(rows, ws, stamp, i, j);
      match MetaAt(ws, p)
      case None => (p in r <==> p in rows) && (p in r ==> r[p] == rows[p])
      case Some(m) =>
        if LiveMeta(rows, p) == Some(m) then
          p in r && (r[p] == rows[p] || r[p] == rows[p].(lastSeen := stamp))
        else
          || ((p in r <==> p in rows) && (p in r ==> r[p] == rows[p]))
          || (p in r && r[p] == Row(m, None, None, stamp))
  {
    var pend, same := Pending(rows, ws)[..i], Unchanged(rows, ws)[..j];
    SortedHold(rows, ws);
    UpsertAllAt(rows, pend, stamp, p);
    if MetaAt(pend, p).Some? {
      var w := Walked(p, MetaAt(pend, p).value);
      assert w in Pending(rows, ws);
      if MetaAt(ws, p).Some? { SameRel(ws, w, Walked(p, MetaAt(ws, p).value)); }
    }
    if p in same {
      assert p in Unchanged(rows, ws);
      var w :| w in ws && w.rel == p && !Differs(rows, w);
      if MetaAt(ws, p).Some? { SameRel(ws, w, Walked(p, MetaAt(ws, p).value)); }
    }
  }

  /** One row after every batch: a walked file's row is live, with its metadata, stamped, and keeps
      its group only when nothing changed; no other row is written. */
  function CommitRow(row: Option<Row>, found: Option<Meta>, stamp: Stamp): Option<Row> {
    match found
    case None => row
    case Some(m) =>
      var same := row.Some? && row.value.deletedAt.None? && row.value.m == m;
      Some(Row(m, if same then row.value.group else None, None, stamp))
  }

  lemma CommittedAt(rows: Rows, ws: seq<Walked>, stamp: Stamp, p: Str)
    requires DistinctBy(RelOf, ws)
    ensures RowAt(Committed(rows, ws, stamp), p) == CommitRow(RowAt(rows, p), MetaAt(ws, p), stamp)
  {
    var pend, same := Pending(rows, ws), Unchanged(rows, ws);
    SortedHold(rows, ws);
    CommitPrefixAt(rows, ws, stamp, |pend|, |same|, p);
    assert pend[..|pend|] == pend && same[..|same|] == same;
    UpsertAllAt(rows, pend, stamp, p);
    if MetaAt(ws, p).Some? {
      var w := Walked(p, MetaAt(ws, p).value);
      if Differs(rows, w) { assert w in pend; } else { assert p in same; }
    }
  }

  // ---- The final transaction ----

  predicate UnderUnreadable(p: Str, unreadable: seq<Str>) {
    exists d | d in unreadable :: Inside(p, d)
  }

  /** The live rows this scan did not see, in the scope of the scan, except under unreadable folders. */
  predicate IsGone(rows: Rows, stamp: Stamp, unreadable: seq<Str>, scope: Str -> bool, p: Str) {
    Live(rows, p) && rows[p].lastSeen != stamp && scope(p) && !UnderUnreadable(p, unreadable)
  }

  function Gone(rows: Rows, stamp: Stamp, unreadable: seq<Str>, scope: Str -> bool): set<Str> {
    set p | p in rows && IsGone(rows, stamp, unreadable, scope, p)
  }

  function MarkGone(rows: Rows, gone: set<Str>, stamp: Stamp): Rows {
    map p | p in rows :: if p in gone then rows[p].(deletedAt := Some(stamp), group := None) else rows[p]
  }

  function ClearGroups(rows: Rows, ps: set<Str>): Rows {
    map p | p in rows :: if p in ps then rows[p].(group := None) else rows[p]
  }

  predicate Mentions(ws: seq<Walked>, p: Str) {
    exists w | w in ws :: w.rel == p
  }

  /** UPDATE ... SET hardlink_group = gid for each member. */
  function AssignGroup(rows: Rows, g: Group, gid: Str): Rows {
    map p | p in rows :: if Mentions(g, p) then rows[p].(group := Some(gid)) else rows[p]
  }

  function AssignGroups(rows: Rows, groups: seq<Group>, id: nat, seqNo: nat): Rows {
    if groups == [] then rows
    else
      var n := |groups| - 1;
      AssignGroup(AssignGroups(rows, groups[..n], id, seqNo), groups[n], GroupId(id, seqNo, n + 1))
  }

  /** The position of the group that mentions p. */
  function GroupAt(groups: seq<Group>, p: Str): (r: Option<nat>)
    ensures r.Some? ==> r.value < |groups| && Mentions(groups[r.value], p)
    ensures r.None? ==> forall g :: g in groups ==> !Mentions(g, p)
  {
    if groups == [] then None
    else
      var n := |groups| - 1;
      assert groups == groups[..n] + [groups[n]];
      if Mentions(groups[n], p) then Some(n) else GroupAt(groups[..n], p)
  }

  lemma {:induction false} AssignGroupsAt(rows: Rows, groups: seq<Group>, id: nat, seqNo: nat, p: Str)
    ensures var r := AssignGroups(rows, groups, id, seqNo);
      && (p in r <==> p in rows)
      && (p in r ==> r[p] == match GroupAt(groups, p)
           case Some(n) => rows[p].(group := Some(GroupId(id, seqNo, n + 1)))
           case None => rows[p])
  {
    if groups != [] { AssignGroupsAt(rows, groups[..|groups| - 1], id, seqNo, p); }
  }

  /** The final transaction on the rows: mark the unseen rows in scope deleted, clear the groups of
      cleared, store this scan's groups. */
  function Finish(rows: Rows, stamp: Stamp, unreadable: seq<Str>, scope: Str -> bool, cleared: set<Str>,
      groups: seq<Group>, id: nat, seqNo: nat): Rows
  {
    var marked := MarkGone(rows, Gone(rows, stamp, unreadable, scope), stamp);
    AssignGroups(ClearGroups(marked, cleared), groups, id, seqNo)
  }

  function GidAt(groups: seq<Group>, id: nat, seqNo: nat, p: Str): Option<Str> {
    match GroupAt(groups, p)
    case Some(n) => Some(GroupId(id, seqNo, n + 1))
    case None => None
  }

  /** One row after the final transaction: hidden under an unreadable folder or not, in the scope of
      the scan or not, its group cleared or not, gid its group of this scan. */
  function FinishRow(row: Option<Row>, stamp: Stamp, hidden: bool, inScope: bool, cleared: bool,
      gid: Option<Str>): Option<Row>
  {
    match row
    case None => None
    case Some(x) =>
      var gone := x.deletedAt.None? && x.lastSeen != stamp && inScope && !hidden;
      var group := if gid.Some? then gid else if gone || cleared then None else x.group;
      Some(Row(x.m, group, if gone then Some(stamp) else x.deletedAt, x.lastSeen))
  }

  lemma FinishAt(rows: Rows, stamp: Stamp, unreadable: seq<Str>, scope: Str -> bool, cleared: set<Str>,
      groups: seq<Group>, id: nat, seqNo: nat, p: Str)
    ensures RowAt(Finish(rows, stamp, unreadable, scope, cleared, groups, id, seqNo), p)
         == FinishRow(RowAt(rows, p), stamp, UnderUnreadable(p, unreadable), scope(p), p in cleared,
           GidAt(groups, id, seqNo, p))
  {
    var marked := MarkGone(rows, Gone(rows, stamp, unreadable, scope), stamp);
    AssignGroupsAt(ClearGroups(marked, cleared), groups, id, seqNo, p);
  }

  /** One row after a whole scan: found by it (with found's metadata) or not. */
  function RowAfter(row: Option<Row>, found: Option<Meta>, hidden: bool, inScope: bool, gid: Option<Str>,
      stamp: Stamp): Option<Row>
  {
    match (found, row)
    case (Some(m), _) => Some(Row(m, gid, None, stamp))
    case (None, None) => None
    case (None, Some(x)) =>
      if !inScope then Some(x.(group := if gid.Some? then gid else x.group))
      else if x.deletedAt.None? && x.lastSeen != stamp && !hidden then Some(Row(x.m, gid, Some(stamp), x.lastSeen))
      else Some(x.(group := gid))
  }

  /** All batches, then the final transaction. */
  lemma CommitThenFinishAt(rows: Rows, ws: seq<Walked>, stamp: Stamp, unreadable: seq<Str>, scope: Str -> bool,
      cleared: set<Str>, groups: seq<Group>, id: nat, seqNo: nat, p: Str)
    requires DistinctBy(RelOf, ws)
    requires MetaAt(ws, p).Some? || p in rows ==> (p in cleared <==> MetaAt(ws, p).Some? || scope(p))
    ensures RowAt(Finish(Committed(rows, ws, stamp), stamp, unreadable, scope, cleared, groups, id, seqNo), p)
         == RowAfter(RowAt(rows, p), MetaAt(ws, p), UnderUnreadable(p, unreadable), scope(p),
           GidAt(groups, id, seqNo, p), stamp)
  {
    CommittedAt(rows, ws, stamp, p);
    FinishAt(Committed(rows, ws, stamp), stamp, unreadable, scope, cleared, groups, id, seqNo, p);
  }
}
