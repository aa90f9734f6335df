/** The catalog queries a sync reads: the live files under some paths, and iteration page by page. */
module Queries {
  import opened Sets
  import opened Wrappers
  import opened Bytes
  import opened Paths
  import opened Catalog

  /** LiveUnder: the live files that are one of paths or lie inside one of them, each once, in path
      order; None for an invalid path. */
  method LiveUnder(rows: Rows, paths: seq<Str>) returns (r: Option<seq<Str>>)
    ensures r.None? <==> exists p :: p in paths && !ValidTargetPath(p)
    ensures r.Some? ==> SortedBy(Self, r.value)
    ensures r.Some? ==> forall p :: p in r.value <==> Live(rows, p) && UnderAny(p, paths)
  {
    var targets := CanonicalTargets(paths);
    if targets.None? {
      return None;
    }
    var ts := targets.value;
    var out: seq<Str> := [];
    for i := 0 to |ts|
      invariant DistinctBy(Self, out)
      invariant forall p :: p in out <==> Live(rows, p) && UnderAny(p, ts[..i])
    {
      var range := PrefixRange(ts[i]);
      var files := OrderByPath(set p | p in rows && Live(rows, p) && (p == ts[i] || InRange(p, range)));
      forall p ensures p in files <==> Live(rows, p) && Under(p, ts[i]) { PrefixRangeIsInside(ts[i], p); }
      Concatenates(ts, i, out, files, rows);
      out := out + files;
    }
    assert ts[..|ts|] == ts;
    SortSorted(Self, out);
    return Some(Sort(Self, out));
  }

  /** The files of one more target of an antichain are new. */
  lemma Concatenates(ts: seq<Str>, i: nat, out: seq<Str>, files: seq<Str>, rows: Rows)
    requires i < |ts| && Antichain(ts) && SortedBy(Self, ts) && SortedBy(Self, files) && DistinctBy(Self, out)
    requires forall p :: p in out <==> Live(rows, p) && UnderAny(p, ts[..i])
    requires forall p :: p in files <==> Live(rows, p) && Under(p, ts[i])
    ensures DistinctBy(Self, out + files)
    ensures forall p :: p in out + files <==> Live(rows, p) && UnderAny(p, ts[..i + 1])
  {
    SortedIsDistinct(Self, files);
    forall p | p in out ensures !Under(p, ts[i]) {
      var t :| t in ts[..i] && Under(p, t);
      var j :| 0 <= j < i && ts[j] == t;
      LessAsymmetric(Self(ts[j]), Self(ts[i]));
      DisjointTargets(p, t, ts[i]);
    }
    forall x, y | x in out && y in files ensures Self(x) != Self(y) {}
    assert ts[..i + 1] == ts[..i] + [ts[i]];
  }

  // ---- Keyset iteration ----

  /** The rows as page number n reads them: other transactions may change them between pages. */
  function PageRows(cats: seq<Rows>, n: nat): Rows
    requires cats != []
  {
    cats[if n < |cats| then n else |cats| - 1]
  }

  /** WHERE rel_path > after AND ... */
  function Hits(rows: Rows, where_: Row -> bool, after: Str): set<Str> {
    set p | p in rows && Less(after, p) && where_(rows[p])
  }

  /** One page: the first limit hits in path order. */
  method Page(rows: Rows, where_: Row -> bool, after: Str, limit: nat) returns (batch: seq<Str>)
    requires limit > 0
    ensures SortedBy(Self, batch) && |batch| <= limit
    ensures forall p :: p in batch ==> p in Hits(rows, where_, after)
    ensures |batch| < limit ==> forall p :: p in Hits(rows, where_, after) ==> p in batch
    ensures |batch| == limit ==>
      forall p :: p in Hits(rows, where_, after) && (p == batch[limit - 1] || Less(p, batch[limit - 1])) ==> p in batch
  {
    var all := OrderByPath(Hits(rows, where_, after));
    if |all| <= limit {
      return all;
    }
    batch := all[..limit];
    forall p | p in all && p !in batch ensures p != batch[limit - 1] && !Less(p, batch[limit - 1]) {
      var k :| 0 <= k < |all| && all[k] == p;
      assert forall j :: 0 <= j < limit ==> batch[j] == all[j] && all[j] in batch;
      LessAsymmetric(Self(all[limit - 1]), Self(all[k]));
    }
  }

  /** Rows that match on every page. */
  ghost predicate Matches(cats: seq<Rows>, where_: Row -> bool, p: Str) {
    forall n :: 0 <= n < |cats| ==> p in cats[n] && where_(cats[n][p])
  }

  ghost predicate MatchesSome(cats: seq<Rows>, where_: Row -> bool, p: Str) {
    exists n :: 0 <= n < |cats| && p in cats[n] && where_(cats[n][p])
  }

  /** The calls for one page, up to the first that stops. */
  method CallEach(batch: seq<Str>, stop: Str -> bool) returns (called: seq<Str>, stopped: bool)
    ensures called <= batch && (!stopped ==> called == batch)
    ensures stopped ==> called != [] && stop(called[|called| - 1])
    ensures forall i :: 0 <= i < |called| && stop(called[i]) ==> stopped && i == |called| - 1
  {
    for i := 0 to |batch|
      invariant forall k :: 0 <= k < i ==> !stop(batch[k])
    {
      if stop(batch[i]) {
        return batch[..i + 1], true;
      }
    }
    return batch, false;
  }

  ghost function Ahead(rows: Rows, after: Str): nat {
    |set p | p in rows && Less(after, p)|
  }

  lemma FewerAhead(rows: Rows, after: Str, next: Str)
    requires next in rows && Less(after, next)
    ensures Ahead(rows, next) < Ahead(rows, after)
  {
    var a, b := set p | p in rows && Less(next, p), set p | p in rows && Less(after, p);
    forall p | p in a ensures p in b { LessTransitive(after, next, p); }
    LessIrreflexive(next);
    assert next in b && next !in a;
    assert a + {next} <= b;
    SmallerOrSame(a + {next}, b);
  }

  /** The calls so far, and one page behind after. */
  lemma AppendPage(calls: seq<Str>, batch: seq<Str>, after: Str)
    requires SortedBy(Self, calls) && SortedBy(Self, batch)
    requires forall p :: p in calls ==> p == after || Less(p, after)
    requires forall p :: p in batch ==> Less(after, p)
    ensures SortedBy(Self, calls + batch)
    ensures batch != [] ==> forall p :: p in calls + batch ==> p == batch[|batch| - 1] || Less(p, batch[|batch| - 1])
  {
    forall p, q | p in calls && q in batch ensures Less(p, q) {
      if p != after { LessTransitive(p, after, q); }
    }
  }

  /** The calls up to after: in order, each of a row that matched, and of every row that matched all along. */
  ghost predicate CalledUpTo(cats: seq<Rows>, where_: Row -> bool, calls: seq<Str>, after: Str) {
    && SortedBy(Self, calls)
    && (forall p :: p in calls ==> p != [] && MatchesSome(cats, where_, p) && (p == after || Less(p, after)))
    && (forall p :: p != [] && Matches(cats, where_, p) ==> p in calls || Less(after, p))
  }

  lemma PageMatches(cats: seq<Rows>, where_: Row -> bool, n: nat, after: Str, p: Str)
    requires cats != [] && p in Hits(PageRows(cats, n), where_, after)
    ensures p != [] && MatchesSome(cats, where_, p) && Less(after, p)
  {
    var k := if n < |cats| then n else |cats| - 1;
    assert p in cats[k] && where_(cats[k][p]);
  }

  lemma MatchesOnPage(cats: seq<Rows>, where_: Row -> bool, n: nat, after: Str, p: Str)
    requires cats != [] && Matches(cats, where_, p) && Less(after, p)
    ensures p in Hits(PageRows(cats, n), where_, after)
  {
  }

  /** A full page takes the calls up to its last path. */
  lemma FullPage(cats: seq<Rows>, where_: Row -> bool, n: nat, after: Str, limit: nat, calls: seq<Str>, batch: seq<Str>)
    requires cats != [] && limit > 0 && CalledUpTo(cats, where_, calls, after)
    requires SortedBy(Self, batch) && |batch| == limit
    requires forall p :: p in batch ==> p in Hits(PageRows(cats, n), where_, after)
    requires forall q ::
      q in Hits(PageRows(cats, n), where_, after) && (q == batch[limit - 1] || Less(q, batch[limit - 1])) ==>
      q in batch
    ensures CalledUpTo(cats, where_, calls + batch, batch[limit - 1])
  {
    AppendPage(calls, batch, after);
    forall p | p in batch ensures p != [] && MatchesSome(cats, where_, p) { PageMatches(cats, where_, n, after, p); }
    forall p | p != [] && Matches(cats, where_, p) && p !in calls + batch ensures Less(batch[limit - 1], p) {
      MatchesOnPage(cats, where_, n, after, p);
      LessTotal(p, batch[limit - 1]);
    }
  }

  /** A page that holds every hit is the last. */
  lemma LastPage(cats: seq<Rows>, where_: Row -> bool, n: nat, after: Str, calls: seq<Str>, batch: seq<Str>)
    requires cats != [] && CalledUpTo(cats, where_, calls, after)
    requires forall p :: p in Hits(PageRows(cats, n), where_, after) ==> p in batch
    ensures forall p :: p != [] && Matches(cats, where_, p) ==> p in calls + batch
  {
    forall p | p != [] && Matches(cats, where_, p) && p !in calls ensures p in batch {
      MatchesOnPage(cats, where_, n, after, p);
    }
  }

  /** iterate: calls fn (stop says where it returns an error) for the matching rows, page by page;
      calls are the paths it was called with. However the rows change between pages, it is never
      called twice with a path, and unless fn stops it, it is called with every path that matched all
      along. */
  method Iterate(cats: seq<Rows>, where_: Row -> bool, limit: nat, stop: Str -> bool)
    returns (calls: seq<Str>, stopped: bool)
    requires cats != [] && limit > 0
    ensures SortedBy(Self, calls)
    ensures forall p :: p in calls ==> p != [] && MatchesSome(cats, where_, p)
    ensures stopped ==> calls != [] && stop(calls[|calls| - 1])
    ensures forall i :: 0 <= i < |calls| && stop(calls[i]) ==> stopped && i == |calls| - 1
    ensures !stopped ==> forall p :: p != [] && Matches(cats, where_, p) ==> p in calls
  {
    calls, stopped := [], false;
    var after: Str := [];
    var n := 0;
    while true
      invariant CalledUpTo(cats, where_, calls, after) && (forall i :: 0 <= i < |calls| ==> !stop(calls[i]))
      decreases if n < |cats| then |cats| - n else 0, Ahead(cats[|cats| - 1], after)
    {
      var batch := Page(PageRows(cats, n), where_, after, limit);
      forall p | p in batch ensures p != [] && MatchesSome(cats, where_, p) && Less(after, p) {
        PageMatches(cats, where_, n, after, p);
      }
      var called, end := CallEach(batch, stop);
      if end {
        assert forall i :: 0 <= i < |called| ==> called[i] == batch[i] && called[i] in batch;
        AppendPage(calls, called, after);
        return calls + called, true;
      }
      if |batch| < limit {
        AppendPage(calls, batch, after);
        LastPage(cats, where_, n, after, calls, batch);
        return calls + batch, false;
      }
      FullPage(cats, where_, n, after, limit, calls, batch);
      assert batch[limit - 1] in batch;
      if n >= |cats| { FewerAhead(cats[|cats| - 1], after, batch[limit - 1]); }
      calls := calls + batch;
      after := batch[limit - 1];
      n := n + 1;
    }
  }

  /** On a catalog that does not change, a complete iteration is exactly the matching rows. */
  lemma StableIteration(rows: Rows, where_: Row -> bool, p: Str)
    ensures Matches([rows], where_, p) <==> MatchesSome([rows], where_, p)
    ensures Matches([rows], where_, p) <==> p in rows && where_(rows[p])
  {
    assert [rows][0] == rows;
  }
}
