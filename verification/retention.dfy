/** Which recorded versions the retention keeps (internal/snapshots/keep.go). */
module Retention {
  import opened Sets

  type Time = int

  type VersionId = int

  /** An ISO week; which one an instant falls into depends on the time zone and is a parameter. */
  datatype Week = Week(year: int, number: int)

  const DAY: int := 24 * 3600 * 1_000_000_000

  const FAILED_KEEP: int := 7 * DAY

  datatype Version = Version(id: VersionId, createdAt: Time, ok: bool)

  predicate Newer(a: Version, b: Version) {
    a.createdAt > b.createdAt || (a.createdAt == b.createdAt && a.id > b.id)
  }

  ghost predicate Distinct(vs: seq<Version>) {
    forall i, j :: 0 <= i < j < |vs| ==> vs[i].id != vs[j].id
  }

  ghost predicate NewestComeFirst(vs: seq<Version>) {
    forall i, j :: 0 <= i < j < |vs| ==> Newer(vs[i], vs[j])
  }

  function Max(a: int, b: int): int {
    if a > b then a else b
  }

  // ---- What is kept, whatever order the versions come in ----

  function NewerOks(vs: seq<Version>, v: Version): set<Version> {
    set u | u in vs && u.ok && Newer(u, v)
  }

  function NewerWeeks(vs: seq<Version>, v: Version, week: Time -> Week): set<Week> {
    set u | u in NewerOks(vs, v) :: week(u.createdAt)
  }

  /** One of the newest daily ok versions, or the newest of one of the weekly most recent weeks that
      have one. */
  predicate Kept(vs: seq<Version>, v: Version, daily: int, weekly: int, week: Time -> Week) {
    && v.ok
    && (|NewerOks(vs, v)| < Max(daily, 1)
        || (week(v.createdAt) !in NewerWeeks(vs, v, week) && |NewerWeeks(vs, v, week)| < Max(weekly, 0)))
  }

  predicate Removed(vs: seq<Version>, v: Version, daily: int, weekly: int, week: Time -> Week, now: Time) {
    if v.ok then !Kept(vs, v, daily, weekly, week) else now - v.createdAt >= FAILED_KEEP
  }

  // ---- The code ----

  function Insert(v: Version, sorted: seq<Version>): (r: seq<Version>)
    ensures multiset(r) == multiset(sorted) + multiset{v}
    ensures |r| == |sorted| + 1
  {
    if sorted == [] || Newer(v, sorted[0]) then [v] + sorted
    else
      assert sorted == [sorted[0]] + sorted[1..];
      [sorted[0]] + Insert(v, sorted[1..])
  }

  /** newestFirst. */
  function NewestFirst(vs: seq<Version>): (r: seq<Version>)
    ensures multiset(r) == multiset(vs)
  {
    if vs == [] then []
    else
      assert vs == [vs[0]] + vs[1..];
      Insert(vs[0], NewestFirst(vs[1..]))
  }

  lemma SameMembers(r: seq<Version>, vs: seq<Version>)
    requires multiset(r) == multiset(vs)
    ensures forall v :: v in r <==> v in vs
  {
    assert forall v :: v in r <==> v in multiset(r);
    assert forall v :: v in vs <==> v in multiset(vs);
  }

  lemma FirstIsNewest(v: Version, rest: seq<Version>)
    requires NewestComeFirst(rest) && forall u :: u in rest ==> Newer(v, u)
    ensures NewestComeFirst([v] + rest)
  {
  }

  lemma {:induction false} InsertSorts(v: Version, sorted: seq<Version>)
    requires NewestComeFirst(sorted) && forall u :: u in sorted ==> u.id != v.id
    ensures NewestComeFirst(Insert(v, sorted))
  {
    if sorted == [] || Newer(v, sorted[0]) {
      FirstIsNewest(v, sorted);
    } else {
      var rest := sorted[1..];
      InsertSorts(v, rest);
      assert multiset(Insert(v, rest)) == multiset([v] + rest);
      SameMembers(Insert(v, rest), [v] + rest);
      forall u | u in Insert(v, rest) ensures Newer(sorted[0], u) {
        if u == v {
          assert sorted[0].id != v.id;
        }
      }
      FirstIsNewest(sorted[0], Insert(v, rest));
    }
  }

  lemma {:induction false} NewestFirstSorts(vs: seq<Version>)
    requires Distinct(vs)
    ensures NewestComeFirst(NewestFirst(vs))
  {
    if vs != [] {
      NewestFirstSorts(vs[1..]);
      SameMembers(NewestFirst(vs[1..]), vs[1..]);
      InsertSorts(vs[0], NewestFirst(vs[1..]));
    }
  }

  function OksOf(s: seq<Version>): set<Version> {
    set u | u in s && u.ok
  }

  lemma NewerIsBefore(vs: seq<Version>, s: seq<Version>, i: nat)
    requires multiset(s) == multiset(vs) && NewestComeFirst(s) && i < |s|
    ensures NewerOks(vs, s[i]) == OksOf(s[..i])
  {
    SameMembers(s, vs);
    forall u | u in s && Newer(u, s[i]) ensures u in s[..i] {
      var k :| 0 <= k < |s| && s[k] == u;
      assert k < i;
    }
  }

  lemma OksGrow(s: seq<Version>, i: nat)
    requires NewestComeFirst(s) && i < |s|
    ensures OksOf(s[..i + 1]) == OksOf(s[..i]) + if s[i].ok then {s[i]} else {}
    ensures s[i] !in s[..i]
  {
    assert s[..i + 1] == s[..i] + [s[i]];
  }

  function WeeksOf(oks: set<Version>, week: Time -> Week): set<Week> {
    set u | u in oks :: week(u.createdAt)
  }

  /** What Keep's counters say after the i newest versions. */
  ghost predicate Counting(s: seq<Version>, i: nat, w: nat, week: Time -> Week, nOk: nat, weeks: set<Week>)
    requires i <= |s|
  {
    && nOk == |OksOf(s[..i])|
    && weeks <= WeeksOf(OksOf(s[..i]), week)
    && |weeks| <= w
    && (|weeks| < w ==> weeks == WeeksOf(OksOf(s[..i]), week))
  }

  predicate Named(s: seq<Version>, id: VersionId) {
    exists u :: u in s && u.id == id
  }

  /** keep holds the kept ones of done. */
  ghost predicate Keeping(vs: seq<Version>, done: seq<Version>, d: nat, w: nat, week: Time -> Week,
      keep: set<VersionId>)
  {
    && (forall id :: id in keep ==> Named(done, id))
    && (forall u :: u in done ==> (u.id in keep <==> Kept(vs, u, d, w, week)))
  }

  /** Whether version i is kept shows in the counters. */
  lemma KeptShows(vs: seq<Version>, s: seq<Version>, i: nat, d: nat, w: nat, week: Time -> Week, nOk: nat,
      weeks: set<Week>)
    requires multiset(s) == multiset(vs) && NewestComeFirst(s) && i < |s| && d >= 1
    requires Counting(s, i, w, week, nOk, weeks)
    ensures Kept(vs, s[i], d, w, week) <==>
      s[i].ok && (nOk < d || (week(s[i].createdAt) !in weeks && |weeks| < w))
  {
    NewerIsBefore(vs, s, i);
    var all := WeeksOf(OksOf(s[..i]), week);
    assert NewerWeeks(vs, s[i], week) == all;
    if |weeks| == w {
      SmallerOrSame(weeks, all);
    }
  }

  lemma OkCountGrows(s: seq<Version>, i: nat)
    requires NewestComeFirst(s) && i < |s|
    ensures |OksOf(s[..i + 1])| == |OksOf(s[..i])| + if s[i].ok then 1 else 0
  {
    OksGrow(s, i);
  }

  lemma WeeksGrow(s: seq<Version>, i: nat, week: Time -> Week)
    requires NewestComeFirst(s) && i < |s|
    ensures WeeksOf(OksOf(s[..i + 1]), week) ==
      WeeksOf(OksOf(s[..i]), week) + if s[i].ok then {week(s[i].createdAt)} else {}
  {
    OksGrow(s, i);
  }

  lemma CountingStep(s: seq<Version>, i: nat, w: nat, week: Time -> Week, nOk: nat, weeks: set<Week>)
    requires NewestComeFirst(s) && i < |s| && Counting(s, i, w, week, nOk, weeks)
    ensures var k := week(s[i].createdAt);
      Counting(s, i + 1, w, week, nOk + (if s[i].ok then 1 else 0),
               if s[i].ok && k !in weeks && |weeks| < w then weeks + {k} else weeks)
  {
    OkCountGrows(s, i);
    WeeksGrow(s, i, week);
  }

  lemma KeepingStep(vs: seq<Version>, done: seq<Version>, v: Version, d: nat, w: nat, week: Time -> Week,
      keep: set<VersionId>)
    requires Keeping(vs, done, d, w, week, keep) && forall u :: u in done ==> u.id != v.id
    ensures Keeping(vs, done + [v], d, w, week, if Kept(vs, v, d, w, week) then keep + {v.id} else keep)
  {
    assert v in done + [v];
    assert forall u :: u in done + [v] <==> u in done || u == v;
    assert v.id !in keep;
  }

  lemma EarlierDiffer(vs: seq<Version>, s: seq<Version>, i: nat)
    requires Distinct(vs) && multiset(s) == multiset(vs) && NewestComeFirst(s) && i < |s|
    ensures forall u :: u in s[..i] ==> u.id != s[i].id
    ensures s[..i + 1] == s[..i] + [s[i]]
  {
    SameMembers(s, vs);
    forall u | u in s[..i] ensures u.id != s[i].id {
      assert u in vs && s[i] in vs && Newer(u, s[i]);
    }
  }

  /** Keep: the ids of the ok versions the retention keeps. */
  method Keep(vs: seq<Version>, daily: int, weekly: int, week: Time -> Week) returns (keep: set<VersionId>)
    requires Distinct(vs)
    ensures forall v :: v in vs ==> (v.id in keep <==> Kept(vs, v, daily, weekly, week))
  {
    var d: nat, w: nat := Max(daily, 1), Max(weekly, 0);
    keep := {};
    var weeks: set<Week> := {};
    var nOk: nat := 0;
    var s := NewestFirst(vs);
    NewestFirstSorts(vs);
    SameMembers(s, vs);
    for i := 0 to |s|
      invariant Counting(s, i, w, week, nOk, weeks)
      invariant Keeping(vs, s[..i], d, w, week, keep)
    {
      var v := s[i];
      KeptShows(vs, s, i, d, w, week, nOk, weeks);
      CountingStep(s, i, w, week, nOk, weeks);
      EarlierDiffer(vs, s, i);
      KeepingStep(vs, s[..i], v, d, w, week, keep);
      if v.ok {
        nOk := nOk + 1;
        if nOk <= d {
          keep := keep + {v.id};
        }
        var k := week(v.createdAt);
        if k !in weeks && |weeks| < w {
          weeks := weeks + {k};
          keep := keep + {v.id};
        }
      }
    }
    assert s[..|s|] == s;
  }

  /** gone is what the retention removes of from, oldest first. */
  ghost predicate Giving(vs: seq<Version>, from: seq<Version>, daily: int, weekly: int, week: Time -> Week, now: Time,
      gone: seq<Version>)
  {
    && (forall v :: v in gone <==> v in from && Removed(vs, v, daily, weekly, week, now))
    && (forall j, k :: 0 <= j < k < |gone| ==> Newer(gone[k], gone[j]))
  }

  lemma GivingStep(vs: seq<Version>, sorted: seq<Version>, i: nat, daily: int, weekly: int, week: Time -> Week,
      now: Time, gone: seq<Version>)
    requires NewestComeFirst(sorted) && i < |sorted|
    requires Giving(vs, sorted[i + 1..], daily, weekly, week, now, gone)
    ensures Giving(vs, sorted[i..], daily, weekly, week, now,
      if Removed(vs, sorted[i], daily, weekly, week, now) then gone + [sorted[i]] else gone)
  {
    var v := sorted[i];
    assert sorted[i..] == [v] + sorted[i + 1..];
    forall u | u in gone ensures Newer(v, u) {
      var k :| i < k < |sorted| && sorted[k] == u;
    }
  }

  /** Prune: the ids of the versions to delete, oldest first. */
  method Prune(vs: seq<Version>, daily: int, weekly: int, now: Time, week: Time -> Week)
    returns (remove: seq<VersionId>, ghost gone: seq<Version>)
    requires Distinct(vs)
    ensures |remove| == |gone| && forall i :: 0 <= i < |gone| ==> remove[i] == gone[i].id
    ensures forall v :: v in gone <==> v in vs && Removed(vs, v, daily, weekly, week, now)
    ensures forall i, j :: 0 <= i < j < |gone| ==> Newer(gone[j], gone[i])
  {
    var keep := Keep(vs, daily, weekly, week);
    var sorted := NewestFirst(vs);
    NewestFirstSorts(vs);
    SameMembers(sorted, vs);
    remove, gone := [], [];
    var i := |sorted|;
    while i > 0
      invariant 0 <= i <= |sorted|
      invariant |remove| == |gone| && forall j :: 0 <= j < |gone| ==> remove[j] == gone[j].id
      invariant Giving(vs, sorted[i..], daily, weekly, week, now, gone)
    {
      i := i - 1;
      var v := sorted[i];
      GivingStep(vs, sorted, i, daily, weekly, week, now, gone);
      assert v in vs;
      if !(v.ok && v.id in keep) && !(!v.ok && now - v.createdAt < FAILED_KEEP) {
        remove := remove + [v.id];
        gone := gone + [v];
      }
    }
  }

  // ---- What that means ----

  /** The newest ok version is always kept. */
  lemma NewestOkKept(vs: seq<Version>, v: Version, daily: int, weekly: int, week: Time -> Week, now: Time)
    requires v in vs && v.ok && forall u :: u in vs && u.ok ==> u == v || Newer(v, u)
    ensures !Removed(vs, v, daily, weekly, week, now)
  {
    assert NewerOks(vs, v) == {};
  }

  lemma {:induction false} NewestOk(vs: seq<Version>) returns (v: Version)
    requires Distinct(vs) && exists u :: u in vs && u.ok
    ensures v in vs && v.ok && forall u :: u in vs && u.ok ==> u == v || Newer(v, u)
  {
    var last, before := vs[|vs| - 1], vs[..|vs| - 1];
    assert forall u :: u in vs <==> u in before || u == last;
    if exists u :: u in before && u.ok {
      v := NewestOk(before);
      if last.ok && Newer(last, v) {
        v := last;
      }
    } else {
      v := last;
    }
  }

  lemma FewerNewer(vs: seq<Version>, left: seq<Version>, v: Version, week: Time -> Week)
    requires forall u :: u in left ==> u in vs
    ensures NewerOks(left, v) <= NewerOks(vs, v) && |NewerOks(left, v)| <= |NewerOks(vs, v)|
    ensures NewerWeeks(left, v, week) <= NewerWeeks(vs, v, week) &&
      |NewerWeeks(left, v, week)| <= |NewerWeeks(vs, v, week)|
  {
    SmallerOrSame(NewerOks(left, v), NewerOks(vs, v));
    assert NewerWeeks(left, v, week) <= NewerWeeks(vs, v, week);
    SmallerOrSame(NewerWeeks(left, v, week), NewerWeeks(vs, v, week));
  }

  /** Pruning what a prune left, at the same time, removes nothing: pruning again is safe after a crash
      that came after any part of the deletions, as long as the kept ones stay. */
  lemma PruneAgainRemovesNoKept(vs: seq<Version>, left: seq<Version>, v: Version,
                                daily: int, weekly: int, week: Time -> Week, now: Time)
    requires forall u :: u in left ==> u in vs
    requires v in left && !Removed(vs, v, daily, weekly, week, now)
    ensures !Removed(left, v, daily, weekly, week, now)
  {
    FewerNewer(vs, left, v, week);
  }

  // ---- How many are kept ----

  /** A failed version stays for seven days. */
  lemma FailedStaysAWeek(vs: seq<Version>, v: Version, daily: int, weekly: int, week: Time -> Week, now: Time)
    requires !v.ok
    ensures Removed(vs, v, daily, weekly, week, now) <==> now >= v.createdAt + 7 * 24 * 3600 * 1_000_000_000
  {
  }

  /** The newest ok versions, at most as many as daily says (and at least one), are kept. */
  lemma NewestAreKept(vs: seq<Version>, newest: set<Version>, v: Version, daily: int, weekly: int, week: Time -> Week)
    requires v in newest && |newest| <= Max(daily, 1)
    requires forall t :: t in newest ==> t in vs && t.ok
    requires forall t, u :: t in newest && u in vs && u.ok && Newer(u, t) ==> u in newest
    ensures Kept(vs, v, daily, weekly, week)
  {
    assert NewerOks(vs, v) <= newest - {v};
    SmallerOrSame(NewerOks(vs, v), newest - {v});
  }

  /** The newest ok version of each of the most recent weeks that have one, at most as many weeks as weekly says, is
      kept. */
  lemma NewestOfWeekIsKept(vs: seq<Version>, weeks: set<Week>, v: Version, daily: int, weekly: int, week: Time -> Week)
    requires v in vs && v.ok && week(v.createdAt) in weeks && |weeks| <= Max(weekly, 0)
    requires forall u :: u in vs && u.ok && Newer(u, v) ==> week(u.createdAt) in weeks - {week(v.createdAt)}
    ensures Kept(vs, v, daily, weekly, week)
  {
    assert NewerWeeks(vs, v, week) <= weeks - {week(v.createdAt)};
    SmallerOrSame(NewerWeeks(vs, v, week), weeks - {week(v.createdAt)});
  }

  function KeptOf(vs: seq<Version>, daily: int, weekly: int, week: Time -> Week): set<Version> {
    set v | v in vs && Kept(vs, v, daily, weekly, week)
  }

  function DailyOf(vs: seq<Version>, d: nat): set<Version> {
    set v | v in vs && v.ok && |NewerOks(vs, v)| < d
  }

  /** v is the newest ok version of its week, and rank more recent weeks have one. */
  predicate WeekRank(vs: seq<Version>, v: Version, week: Time -> Week, rank: nat) {
    && v in vs && v.ok
    && week(v.createdAt) !in NewerWeeks(vs, v, week) && |NewerWeeks(vs, v, week)| == rank
  }

  function RankedOf(vs: seq<Version>, week: Time -> Week, rank: nat): set<Version> {
    set v | v in vs && WeekRank(vs, v, week, rank)
  }

  function WeeklyOf(vs: seq<Version>, w: nat, week: Time -> Week): set<Version> {
    if w == 0 then {} else WeeklyOf(vs, w - 1, week) + RankedOf(vs, week, w - 1)
  }

  lemma {:induction false} WeeklyIn(vs: seq<Version>, w: nat, week: Time -> Week, v: Version, rank: nat)
    requires WeekRank(vs, v, week, rank) && rank < w
    ensures v in WeeklyOf(vs, w, week)
  {
    if rank < w - 1 { WeeklyIn(vs, w - 1, week, v, rank); }
  }

  lemma FewerOks(vs: seq<Version>, u: Version, v: Version)
    requires u in vs && u.ok && Newer(u, v)
    ensures |NewerOks(vs, u)| < |NewerOks(vs, v)|
  {
    assert NewerOks(vs, u) + {u} <= NewerOks(vs, v);
    SmallerOrSame(NewerOks(vs, u) + {u}, NewerOks(vs, v));
  }

  lemma FewerWeeks(vs: seq<Version>, u: Version, v: Version, week: Time -> Week)
    requires u in vs && u.ok && Newer(u, v) && week(u.createdAt) !in NewerWeeks(vs, u, week)
    ensures |NewerWeeks(vs, u, week)| < |NewerWeeks(vs, v, week)|
  {
    assert NewerWeeks(vs, u, week) + {week(u.createdAt)} <= NewerWeeks(vs, v, week);
    SmallerOrSame(NewerWeeks(vs, u, week) + {week(u.createdAt)}, NewerWeeks(vs, v, week));
  }

  lemma OneIsNewer(vs: seq<Version>, u: Version, v: Version)
    requires Distinct(vs) && u in vs && v in vs && u != v
    ensures Newer(u, v) || Newer(v, u)
  {
    var i :| 0 <= i < |vs| && vs[i] == u;
    var j :| 0 <= j < |vs| && vs[j] == v;
    assert u.id != v.id;
  }

  lemma {:induction false} FewDaily(vs: seq<Version>, d: nat)
    requires Distinct(vs)
    ensures |DailyOf(vs, d)| <= d
  {
    if d == 0 {
      assert DailyOf(vs, 0) == {};
    } else {
      FewDaily(vs, d - 1);
      var last := DailyOf(vs, d) - DailyOf(vs, d - 1);
      forall u, v | u in last && v in last ensures u == v {
        if u != v {
          OneIsNewer(vs, u, v);
          if Newer(u, v) { FewerOks(vs, u, v); } else { FewerOks(vs, v, u); }
        }
      }
      AtMostOne(last);
      assert DailyOf(vs, d) == DailyOf(vs, d - 1) + last;
    }
  }

  /** One week has one newest version. */
  lemma SameWeekRank(vs: seq<Version>, u: Version, v: Version, week: Time -> Week)
    requires Distinct(vs) && exists rank: nat :: WeekRank(vs, u, week, rank) && WeekRank(vs, v, week, rank)
    ensures u == v
  {
    if u != v {
      OneIsNewer(vs, u, v);
      if Newer(u, v) { FewerWeeks(vs, u, v, week); } else { FewerWeeks(vs, v, u, week); }
    }
  }

  lemma {:induction false} FewWeekly(vs: seq<Version>, w: nat, week: Time -> Week)
    requires Distinct(vs)
    ensures |WeeklyOf(vs, w, week)| <= w
  {
    if w > 0 {
      FewWeekly(vs, w - 1, week);
      var last := RankedOf(vs, week, w - 1);
      forall u, v | u in last && v in last ensures u == v {
        SameWeekRank(vs, u, v, week);
      }
      AtMostOne(last);
    }
  }

  lemma AtMostOne(s: set<Version>)
    requires forall u, v :: u in s && v in s ==> u == v
    ensures |s| <= 1
  {
    if s != {} {
      var u :| u in s;
      assert s == {u};
    }
  }

  /** Never more are kept than daily (at least one) and weekly say together. */
  lemma KeptBound(vs: seq<Version>, daily: int, weekly: int, week: Time -> Week)
    requires Distinct(vs)
    ensures |KeptOf(vs, daily, weekly, week)| <= Max(daily, 1) + Max(weekly, 0)
  {
    var a, b := DailyOf(vs, Max(daily, 1)), WeeklyOf(vs, Max(weekly, 0), week);
    FewDaily(vs, Max(daily, 1));
    FewWeekly(vs, Max(weekly, 0), week);
    forall v | v in KeptOf(vs, daily, weekly, week) && v !in a ensures v in b {
      WeeklyIn(vs, Max(weekly, 0), week, v, |NewerWeeks(vs, v, week)|);
    }
    SmallerOrSame(KeptOf(vs, daily, weekly, week), a + b);
  }
}
