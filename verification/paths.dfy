/** Relative, slash-separated paths as the catalog keys them, and the targets of a targeted scan. */
module Paths {
  import opened Wrappers
  import opened Bytes

  /** The relative path of the source root. */
  const ROOT: Str := [DOT]

  predicate NoSlash(n: Str) { SLASH !in n }

  function JoinRel(dir: Str, name: Str): Str {
    Pre(dir) + name
  }

  /** What every path strictly inside the folder dir starts with. */
  function Pre(dir: Str): Str {
    if dir == ROOT then [] else dir + [SLASH]
  }

  predicate Inside(p: Str, t: Str) { t + [SLASH] <= p }

  predicate Under(p: Str, t: Str) { p == t || Inside(p, t) }

  predicate UnderAny(rel: Str, targets: seq<Str>) {
    exists t | t in targets :: Under(rel, t)
  }

  lemma UnderTransitive(a: Str, b: Str, c: Str)
    requires Under(a, b) && Under(b, c)
    ensures Under(a, c)
  {
    if a != b && b != c {
      assert c + [SLASH] == b[..|c| + 1] == a[..|c| + 1];
    }
  }

  /** Two paths one path lies under are comparable. */
  lemma UnderComparable(p: Str, a: Str, b: Str)
    requires Under(p, a) && Under(p, b) && |a| <= |b|
    ensures Under(b, a)
  {
    assert a == p[..|a|] && b == p[..|b|];
    if |a| < |b| {
      assert p[|a|] == SLASH;
      assert b[..|a| + 1] == p[..|a| + 1] == a + [SLASH];
    }
  }

  lemma DisjointTargets(d: Str, t: Str, u: Str)
    requires t != u && !Inside(t, u) && !Inside(u, t) && Under(d, t)
    ensures !Under(d, u)
  {
    if Under(d, u) {
      if |t| <= |u| { UnderComparable(d, t, u); } else { UnderComparable(d, u, t); }
    }
  }

  // ---- The key range of a folder ----

  function PrefixRange(p: Str): (Str, Str) {
    (p + [SLASH], p + [DIGIT_ZERO])
  }

  /** rel_path >= lo AND rel_path < hi. */
  predicate InRange(s: Str, range: (Str, Str)) {
    !Less(s, range.0) && Less(s, range.1)
  }

  /** In byte order the range of p holds exactly the strings that start with p and a slash. */
  lemma {:induction false} PrefixRangeIsInside(p: Str, s: Str)
    ensures InRange(s, PrefixRange(p)) <==> Inside(s, p)
  {
    if p != [] {
      var lo, hi := PrefixRange(p).0, PrefixRange(p).1;
      assert lo[1..] == p[1..] + [SLASH] && hi[1..] == p[1..] + [DIGIT_ZERO];
      if s != [] && s[0] == p[0] {
        PrefixRangeIsInside(p[1..], s[1..]);
        assert s == [s[0]] + s[1..] && lo == [p[0]] + lo[1..];
        if Inside(s[1..], p[1..]) { assert s[..|lo|] == [s[0]] + s[1..][..|lo| - 1]; }
        if Inside(s, p) { assert s[1..][..|lo| - 1] == s[..|lo|][1..]; }
      }
    } else {
      assert p + [SLASH] == [SLASH] && p + [DIGIT_ZERO] == [DIGIT_ZERO];
      LessSingle(s, SLASH);
      LessSingle(s, DIGIT_ZERO);
      if s != [] { assert s[..1] == [s[0]]; }
    }
  }

  // ---- strings.Split(s, "/") and its inverse ----

  /** The first slash of s at or after i; |s| when there is none. */
  function SlashFrom(s: Str, i: nat): (j: nat)
    requires i <= |s|
    ensures i <= j <= |s|
    ensures j < |s| ==> s[j] == SLASH
    ensures forall k :: i <= k < j ==> s[k] != SLASH
    decreases |s| - i
  {
    if i == |s| || s[i] == SLASH then i else SlashFrom(s, i + 1)
  }

  function SplitFrom(s: Str, i: nat): (r: seq<Str>)
    requires i <= |s|
    ensures |r| >= 1 && Join(r) == s[i..]
    ensures forall n :: n in r ==> NoSlash(n)
    decreases |s| - i
  {
    var j := SlashFrom(s, i);
    if j == |s| then [s[i..]]
    else
      var t := SplitFrom(s, j + 1);
      assert s[i..] == s[i..j] + [SLASH] + s[j + 1..];
      [s[i..j]] + t
  }

  function Split(s: Str): (r: seq<Str>)
    ensures |r| >= 1 && Join(r) == s
    ensures forall n :: n in r ==> NoSlash(n)
  {
    assert s[0..] == s;
    SplitFrom(s, 0)
  }

  function Join(cs: seq<Str>): Str
    requires |cs| >= 1
  {
    if |cs| == 1 then cs[0] else cs[0] + [SLASH] + Join(cs[1..])
  }

  lemma NextSlash(s: Str, i: nat, n: Str)
    requires NoSlash(n) && i + |n| <= |s| && s[i..i + |n|] == n
    requires i + |n| == |s| || s[i + |n|] == SLASH
    ensures SlashFrom(s, i) == i + |n|
  {
    forall k | i <= k < i + |n| ensures s[k] != SLASH {
      assert s[k] == n[k - i];
    }
  }

  ghost predicate Names(cs: seq<Str>) {
    |cs| >= 1 && forall k :: 0 <= k < |cs| ==> NoSlash(cs[k])
  }

  /** The first name of a joined path, and what follows it. */
  lemma JoinHead(cs: seq<Str>)
    requires |cs| >= 1 && NoSlash(cs[0])
    ensures var s, k := Join(cs), |cs[0]|;
      && SlashFrom(s, 0) == k && s[0..k] == cs[0]
      && (k == |s| <==> |cs| == 1)
      && (|cs| > 1 ==> s[k + 1..] == Join(cs[1..]))
  {
    var s, k := Join(cs), |cs[0]|;
    if |cs| > 1 { assert s == cs[0] + [SLASH] + Join(cs[1..]); }
    assert s[0..k] == cs[0];
    NextSlash(s, 0, cs[0]);
  }

  /** A path is joined from names in one way only. */
  lemma {:induction false} JoinInjective(a: seq<Str>, b: seq<Str>)
    requires Names(a) && Names(b) && Join(a) == Join(b)
    ensures a == b
  {
    JoinHead(a);
    JoinHead(b);
    if |a| > 1 {
      JoinInjective(a[1..], b[1..]);
      assert a == [a[0]] + a[1..] && b == [b[0]] + b[1..];
    }
  }

  /** Splitting what was joined gives the names back. */
  lemma SplitJoin(cs: seq<Str>)
    requires Names(cs)
    ensures Split(Join(cs)) == cs
  {
    JoinInjective(Split(Join(cs)), cs);
  }

  lemma {:induction false} JoinConcat(a: seq<Str>, b: seq<Str>)
    requires |a| >= 1 && |b| >= 1
    ensures Join(a + b) == Join(a) + [SLASH] + Join(b)
  {
    if |a| == 1 {
      assert (a + b)[1..] == b;
    } else {
      assert (a + b)[1..] == a[1..] + b;
      JoinConcat(a[1..], b);
      assert Join(a) + [SLASH] + Join(b) == a[0] + [SLASH] + (Join(a[1..]) + [SLASH] + Join(b));
    }
  }

  /** The names of a path start with the names of the paths it lies inside. */
  lemma SplitInside(p: Str, t: Str)
    requires Inside(p, t)
    ensures |Split(t)| < |Split(p)| && Split(p)[..|Split(t)|] == Split(t)
  {
    var rest := p[|t| + 1..];
    var names := Split(t) + Split(rest);
    JoinConcat(Split(t), Split(rest));
    assert p == t + [SLASH] + rest;
    SplitJoin(names);
  }

  // ---- The targets of a targeted scan ----

  predicate NormalName(n: Str) {
    n != [] && n != [DOT] && n != [DOT, DOT]
  }

  /** jobs.ValidTargetPath: a clean, relative path that is not the root, without ".." or NUL. */
  predicate ValidTargetPath(p: Str) {
    NUL !in p && forall n | n in Split(p) :: NormalName(n)
  }

  function LastSlash(p: Str): (i: int)
    ensures -1 <= i < |p|
    ensures i >= 0 ==> p[i] == SLASH
    ensures forall j :: i < j < |p| ==> p[j] != SLASH
  {
    if p == [] then -1
    else if p[|p| - 1] == SLASH then |p| - 1
    else LastSlash(p[..|p| - 1])
  }

  /** path.Dir of a clean relative path. */
  function Dir(p: Str): (d: Str)
    ensures d != ROOT ==> |d| < |p|
  {
    var i := LastSlash(p);
    if i < 0 then ROOT else p[..i]
  }

  lemma NotInsideRoot(p: Str, a: Str)
    requires ValidTargetPath(p) && Inside(p, a)
    ensures a != ROOT && a != []
  {
    var i := SlashFrom(p, 0);
    assert p[|a|] == SLASH;
    assert Split(p)[0] == p[0..i];
    assert NormalName(Split(p)[0]);
    assert i <= |a|;
    assert p[0..i] == a[..i];
  }

  /** Dir steps from a path above p to the next one, skipping none. */
  lemma DirStep(p: Str, d: Str)
    requires ValidTargetPath(p) && Under(p, d)
    ensures Dir(d) != ROOT ==> Inside(p, Dir(d)) && Dir(d) != []
    ensures forall a :: Inside(p, a) && |a| < |d| ==> Dir(d) != ROOT && |a| <= |Dir(d)|
  {
    var k := LastSlash(d);
    assert d == p[..|d|];
    if k >= 0 {
      assert p[..k + 1] == d[..k] + [SLASH];
      NotInsideRoot(p, d[..k]);
    }
    forall a | Inside(p, a) && |a| < |d| ensures Dir(d) != ROOT && |a| <= |Dir(d)| {
      assert p[|a|] == SLASH && d[|a|] == SLASH;
    }
  }

  ghost predicate Antichain(out: seq<Str>) {
    forall a, b :: a in out && b in out ==> !Inside(a, b)
  }

  /** The canonical form of a list of target paths. */
  ghost predicate Canonical(out: seq<Str>, paths: seq<Str>) {
    && SortedBy(Self, out)
    && Antichain(out)
    && (forall p :: p in out ==> p in paths)
    && (forall rel :: UnderAny(rel, out) <==> UnderAny(rel, paths))
  }

  /** There is only one canonical form. */
  lemma CanonicalUnique(a: seq<Str>, b: seq<Str>, paths: seq<Str>)
    requires Canonical(a, paths) && Canonical(b, paths)
    ensures a == b
  {
    CanonicalSubset(a, b, paths);
    CanonicalSubset(b, a, paths);
    SortedUnique(Self, a, b);
  }

  lemma CanonicalSubset(a: seq<Str>, b: seq<Str>, paths: seq<Str>)
    requires Canonical(a, paths) && Canonical(b, paths)
    ensures forall x :: x in a ==> x in b
  {
    forall x | x in a ensures x in b {
      assert Under(x, x) && UnderAny(x, a) && UnderAny(x, paths) && UnderAny(x, b);
      var y :| y in b && Under(x, y);
      assert Under(y, y) && UnderAny(y, b) && UnderAny(y, paths) && UnderAny(y, a);
      var z :| z in a && Under(y, z);
      UnderTransitive(x, y, z);
      assert x == z;
    }
  }

  /** Of the listed paths above (or equal to) a path, the shortest has no listed path above it. */
  lemma {:induction false} Topmost(p: Str, listed: set<Str>) returns (top: Str)
    requires p in listed
    ensures top in listed && Under(p, top)
    ensures forall a :: a in listed ==> !Inside(top, a)
    decreases |p|
  {
    top := p;
    if exists a :: a in listed && Inside(p, a) {
      var a :| a in listed && Inside(p, a);
      top := Topmost(a, listed);
      UnderTransitive(p, a, top);
    }
  }

  /** inside is what the walk from p up to d has found: whether a path above p longer than d is listed. */
  ghost predicate AboveSeen(p: Str, d: Str, listed: set<Str>, inside: bool) {
    && (d == ROOT || Under(p, d))
    && (inside ==> exists a :: a in listed && Inside(p, a))
    && (!inside ==> forall a :: a in listed && Inside(p, a) ==> d != ROOT && |a| <= |d|)
  }

  lemma SameLength(p: Str, a: Str, b: Str)
    requires Inside(p, a) && Inside(p, b)
    ensures |a| == |b| ==> a == b
  {
    assert a == p[..|a|] && b == p[..|b|];
  }

  lemma AboveSeenStep(p: Str, d: Str, listed: set<Str>, inside: bool)
    requires ValidTargetPath(p) && d != ROOT && Inside(p, d) && AboveSeen(p, d, listed, inside)
    ensures AboveSeen(p, Dir(d), listed, inside || d in listed)
  {
    DirStep(p, d);
    if !inside && d !in listed {
      forall a | a in listed && Inside(p, a) ensures Dir(d) != ROOT && |a| <= |Dir(d)| {
        SameLength(p, a, d);
      }
    }
  }

  /** The walk from p up to the root: is a path above p listed? */
  method InsideAnother(p: Str, listed: set<Str>) returns (inside: bool)
    requires ValidTargetPath(p)
    ensures inside <==> exists a :: a in listed && Inside(p, a)
  {
    inside := false;
    var d := Dir(p);
    DirStep(p, p);
    while d != ROOT
      invariant d != ROOT ==> Inside(p, d)
      invariant AboveSeen(p, d, listed, inside)
      decreases if d == ROOT then 0 else |d| + 1
    {
      DirStep(p, d);
      AboveSeenStep(p, d, listed, inside);
      inside := inside || d in listed;
      d := Dir(d);
    }
  }

  /** Validates target paths and returns them sorted, without duplicates and without paths inside
      another listed path; None is the validation error. */
  method CanonicalTargets(paths: seq<Str>) returns (r: Option<seq<Str>>)
    ensures r.None? <==> exists p :: p in paths && !ValidTargetPath(p)
    ensures r.Some? ==> Canonical(r.value, paths)
  {
    var listed: set<Str> := {};
    for i := 0 to |paths|
      invariant forall p :: p in listed <==> p in paths[..i]
      invariant forall p :: p in listed ==> ValidTargetPath(p)
    {
      if !ValidTargetPath(paths[i]) {
        assert paths[i] in paths;
        return None;
      }
      listed := listed + {paths[i]};
    }
    assert paths[..|paths|] == paths;
    var out: seq<Str> := [];
    var rest := listed;
    while rest != {}
      invariant rest <= listed
      invariant forall p :: p in out <==> p in listed && p !in rest && forall a :: a in listed ==> !Inside(p, a)
      invariant DistinctBy(Self, out)
      decreases rest
    {
      var p :| p in rest;
      rest := rest - {p};
      var inside := InsideAnother(p, listed);
      if !inside {
        out := out + [p];
      }
    }
    SortSorted(Self, out);
    forall rel ensures UnderAny(rel, Sort(Self, out)) <==> UnderAny(rel, paths) {
      if UnderAny(rel, paths) {
        var p :| p in paths && Under(rel, p);
        var top := Topmost(p, listed);
        UnderTransitive(rel, p, top);
        assert top in Sort(Self, out);
      }
      if UnderAny(rel, Sort(Self, out)) {
        var t :| t in Sort(Self, out) && Under(rel, t);
        assert t in paths;
      }
    }
    return Some(Sort(Self, out));
  }
}
