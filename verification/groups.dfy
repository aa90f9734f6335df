/** Hardlink groups: the candidates of one scan, the groups planned from them, and group ids. */
module Groups {
  import opened Bytes
  import opened Tree

  type Links = map<DevIno, seq<Walked>>

  type Group = seq<Walked>

  // ---- The candidates: files seen with a link count of 2 or more, by inode ----

  function CandsAt(ws: seq<Walked>, k: DevIno): (r: seq<Walked>)
    ensures forall w :: w in r <==> w in ws && w.m.nlink >= 2 && w.m.Key() == k
  {
    if ws == [] then []
    else
      var last := ws[|ws| - 1];
      assert ws == ws[..|ws| - 1] + [last];
      CandsAt(ws[..|ws| - 1], k) + if last.m.nlink >= 2 && last.m.Key() == k then [last] else []
  }

  function AddLink(links: Links, w: Walked): Links {
    if w.m.nlink < 2 then links
    else links[w.m.Key() := (if w.m.Key() in links then links[w.m.Key()] else []) + [w]]
  }

  function LinksOf(ws: seq<Walked>): Links {
    if ws == [] then map[] else AddLink(LinksOf(ws[..|ws| - 1]), ws[|ws| - 1])
  }

  lemma LinksOfAppend(ws: seq<Walked>, w: Walked)
    ensures LinksOf(ws + [w]) == AddLink(LinksOf(ws), w)
  {
    assert (ws + [w])[..|ws|] == ws;
  }

  lemma {:induction false} LinksOfAt(ws: seq<Walked>, k: DevIno)
    ensures k in LinksOf(ws) <==> CandsAt(ws, k) != []
    ensures k in LinksOf(ws) ==> LinksOf(ws)[k] == CandsAt(ws, k)
  {
    if ws != [] { LinksOfAt(ws[..|ws| - 1], k); }
  }

  lemma {:induction false} CandsDistinct(ws: seq<Walked>, k: DevIno)
    requires DistinctBy(RelOf, ws)
    ensures DistinctBy(RelOf, CandsAt(ws, k))
  {
    if ws != [] {
      var init, last := ws[..|ws| - 1], ws[|ws| - 1];
      CandsDistinct(init, k);
      forall w | w in CandsAt(init, k) ensures w.rel != last.rel {
        assert w in init;
      }
    }
  }

  // ---- planGroups ----

  /** Names of one inode form a group when their metadata agree and they are at most nlink many. */
  predicate Groupable(ms: seq<Walked>) {
    && |ms| >= 2
    && (forall w | w in ms :: w.m == ms[0].m)
    && |ms| <= ms[0].m.nlink
  }

  ghost function BucketsIn(links: Links, ks: set<DevIno>): set<Group> {
    set k | k in ks && k in links && Groupable(links[k]) :: Sort(RelOf, links[k])
  }

  ghost function Buckets(links: Links): set<Group> {
    BucketsIn(links, links.Keys)
  }

  function FirstRel(g: Group): Str {
    if g == [] then [] else g[0].rel
  }

  /** The groups of the candidates, members in path order, in the order of their first paths. */
  ghost function Plan(links: Links): (groups: seq<Group>)
    ensures forall g :: g in groups <==> g in Buckets(links)
  {
    SortSet(FirstRel, Buckets(links))
  }

  lemma SameRel(ws: seq<Walked>, a: Walked, b: Walked)
    requires DistinctBy(RelOf, ws) && a in ws && b in ws && a.rel == b.rel
    ensures a == b
  {
    var i, j :| 0 <= i < |ws| && 0 <= j < |ws| && ws[i] == a && ws[j] == b;
    assert RelOf(ws[i]) == RelOf(ws[j]);
  }

  /** A bucket is known by its first path. */
  lemma BucketsHaveOwnFirst(ws: seq<Walked>, k: DevIno, l: DevIno)
    requires DistinctBy(RelOf, ws) && CandsAt(ws, k) != [] && CandsAt(ws, l) != []
    requires FirstRel(Sort(RelOf, CandsAt(ws, k))) == FirstRel(Sort(RelOf, CandsAt(ws, l)))
    ensures k == l
  {
    var a, b := Sort(RelOf, CandsAt(ws, k))[0], Sort(RelOf, CandsAt(ws, l))[0];
    assert a in Sort(RelOf, CandsAt(ws, k)) && b in Sort(RelOf, CandsAt(ws, l));
    SameRel(ws, a, b);
  }

  lemma BucketOf(ws: seq<Walked>, ks: set<DevIno>, g: Group) returns (k: DevIno)
    requires g in BucketsIn(LinksOf(ws), ks)
    ensures k in ks && Groupable(CandsAt(ws, k)) && g == Sort(RelOf, CandsAt(ws, k))
  {
    var links := LinksOf(ws);
    k :| k in ks && k in links && Groupable(links[k]) && g == Sort(RelOf, links[k]);
    LinksOfAt(ws, k);
  }

  lemma PlanSorted(ws: seq<Walked>)
    requires DistinctBy(RelOf, ws)
    ensures SortedBy(FirstRel, Plan(LinksOf(ws)))
    ensures forall g :: g in Plan(LinksOf(ws)) ==> SortedBy(RelOf, g)
  {
    var links := LinksOf(ws);
    forall g, h | g in Buckets(links) && h in Buckets(links) && g != h ensures FirstRel(g) != FirstRel(h) {
      var k := BucketOf(ws, links.Keys, g);
      var l := BucketOf(ws, links.Keys, h);
      if FirstRel(g) == FirstRel(h) { BucketsHaveOwnFirst(ws, k, l); }
    }
    SortSetSorted(FirstRel, Buckets(links));
    forall g | g in Plan(links) ensures SortedBy(RelOf, g) {
      var k := BucketOf(ws, links.Keys, g);
      CandsDistinct(ws, k);
      SortSorted(RelOf, CandsAt(ws, k));
    }
  }

  /** An inode whose names are split into single files, with a warning. */
  ghost predicate SplitUp(links: Links, k: DevIno) {
    k in links && |links[k]| >= 2 && !Groupable(links[k])
  }

  /** What one more bucket adds to the plan. */
  lemma BucketStep(links: Links, ks: set<DevIno>, k: DevIno, g: Group)
    requires k in links
    ensures g in BucketsIn(links, ks + {k})
       <==> g in BucketsIn(links, ks) || (Groupable(links[k]) && g == Sort(RelOf, links[k]))
  {
    if g in BucketsIn(links, ks + {k}) {
      var l :| l in ks + {k} && l in links && Groupable(links[l]) && g == Sort(RelOf, links[l]);
    }
    if g in BucketsIn(links, ks) {
      var l :| l in ks && l in links && Groupable(links[l]) && g == Sort(RelOf, links[l]);
      assert l in ks + {k};
    }
    assert k in ks + {k};
  }

  lemma BucketIsNew(ws: seq<Walked>, ks: set<DevIno>, k: DevIno, g: Group)
    requires DistinctBy(RelOf, ws) && k in LinksOf(ws) && k !in ks && g in BucketsIn(LinksOf(ws), ks)
    ensures FirstRel(g) != FirstRel(Sort(RelOf, LinksOf(ws)[k]))
  {
    LinksOfAt(ws, k);
    var l := BucketOf(ws, ks, g);
    if FirstRel(g) == FirstRel(Sort(RelOf, LinksOf(ws)[k])) { BucketsHaveOwnFirst(ws, k, l); }
  }

  /** The decision about one bucket: its names all agree, and are not more than the link count. */
  method DecideBucket(members: seq<Walked>) returns (groupable: bool)
    requires |members| >= 2
    ensures groupable <==> Groupable(members)
  {
    var first := members[0].m;
    for i := 1 to |members|
      invariant forall j :: 0 <= j < i ==> members[j].m == first
    {
      if members[i].m != first {
        assert members[i] in members;
        return false;
      }
    }
    return |members| <= first.nlink;
  }

  /** planGroups: whatever the order in which the candidates are ranged over, the result is Plan.
      split are the inodes reported as not grouped. */
  method PlanGroups(links: Links, ghost ws: seq<Walked>) returns (groups: seq<Group>, split: set<DevIno>)
    requires links == LinksOf(ws) && DistinctBy(RelOf, ws)
    ensures groups == Plan(links)
    ensures forall k :: k in split <==> SplitUp(links, k)
  {
    groups, split := [], {};
    var rest := links.Keys;
    ghost var done: set<DevIno> := {};
    while rest != {}
      invariant rest + done == links.Keys && rest !! done
      invariant forall g :: g in groups <==> g in BucketsIn(links, done)
      invariant DistinctBy(FirstRel, groups)
      invariant forall k :: k in split <==> k in done && SplitUp(links, k)
      decreases rest
    {
      var key :| key in rest;
      var members := links[key];
      forall g ensures g in BucketsIn(links, done + {key})
                  <==> g in BucketsIn(links, done) || (Groupable(members) && g == Sort(RelOf, members))
      {
        BucketStep(links, done, key, g);
      }
      forall g | g in groups ensures FirstRel(g) != FirstRel(Sort(RelOf, members)) {
        BucketIsNew(ws, done, key, g);
      }
      rest, done := rest - {key}, done + {key};
      if |members| < 2 {
        continue;
      }
      var groupable := DecideBucket(members);
      if groupable {
        groups := groups + [Sort(RelOf, members)];
      } else {
        split := split + {key};
      }
    }
    assert done == links.Keys;
    SortSorted(FirstRel, groups);
    PlanSorted(ws);
    SortedUnique(FirstRel, Sort(FirstRel, groups), Plan(links));
    groups := Sort(FirstRel, groups);
  }

  // ---- Group ids: "<source>.<scan>:<n>" ----

  function Decimal(n: nat): (s: Str)
    ensures |s| >= 1
    ensures forall i :: 0 <= i < |s| ==> DIGIT_ZERO <= s[i] <= DIGIT_ZERO + 9
  {
    var d := DIGIT_ZERO + (n % 10) as byte;
    if n < 10 then [d] else Decimal(n / 10) + [d]
  }

  lemma {:induction false} DecimalInjective(a: nat, b: nat)
    requires Decimal(a) == Decimal(b)
    ensures a == b
  {
    var s, t := Decimal(a), Decimal(b);
    assert s[|s| - 1] == DIGIT_ZERO + (a % 10) as byte;
    assert t[|t| - 1] == DIGIT_ZERO + (b % 10) as byte;
    if a >= 10 && b >= 10 {
      assert s[..|s| - 1] == Decimal(a / 10) && t[..|t| - 1] == Decimal(b / 10);
      DecimalInjective(a / 10, b / 10);
    }
  }

  function GroupId(source: nat, seq_: nat, n: nat): Str {
    Decimal(source) + [DOT] + Decimal(seq_) + [COLON] + Decimal(n)
  }

  lemma SeparatorSplits(a: Str, c: byte, x: Str, b: Str, y: Str)
    requires a + [c] + x == b + [c] + y
    requires (forall i :: 0 <= i < |a| ==> a[i] != c) && (forall i :: 0 <= i < |b| ==> b[i] != c)
    ensures a == b && x == y
  {
    var s := a + [c] + x;
    assert s == b + [c] + y;
    assert s[|a|] == c && s[|b|] == c;
    assert forall i :: 0 <= i < |a| ==> s[i] == a[i];
    assert forall i :: 0 <= i < |b| ==> s[i] == b[i];
    assert |a| == |b|;
    assert a == s[..|a|] && b == s[..|b|];
    assert x == s[|a| + 1..] && y == s[|b| + 1..];
  }

  /** Group ids of different sources, scans or groups are different. */
  lemma GroupIdInjective(a: nat, i: nat, n: nat, b: nat, j: nat, m: nat)
    requires GroupId(a, i, n) == GroupId(b, j, m)
    ensures a == b && i == j && n == m
  {
    var x, y := Decimal(i) + [COLON] + Decimal(n), Decimal(j) + [COLON] + Decimal(m);
    assert GroupId(a, i, n) == Decimal(a) + [DOT] + x;
    assert GroupId(b, j, m) == Decimal(b) + [DOT] + y;
    SeparatorSplits(Decimal(a), DOT, x, Decimal(b), y);
    SeparatorSplits(Decimal(i), COLON, Decimal(n), Decimal(j), Decimal(m));
    DecimalInjective(a, b);
    DecimalInjective(i, j);
    DecimalInjective(n, m);
  }
}
