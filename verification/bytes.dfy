/** Byte strings in byte order, the order in which SQLite compares rel_path and Go sorts strings. */
module Bytes {
  newtype byte = b: int | 0 <= b < 256

  type Str = seq<byte>

  const NUL: byte := 0
  const DOT: byte := 46
  const SLASH: byte := 47
  const DIGIT_ZERO: byte := 48
  const COLON: byte := 58

  lemma Associative(a: Str, b: Str, c: Str)
    ensures a + (b + c) == a + b + c
  {
  }

  /** a < b, byte by byte; a proper prefix comes first. */
  predicate Less(a: Str, b: Str) {
    b != [] && (a == [] || a[0] < b[0] || (a[0] == b[0] && Less(a[1..], b[1..])))
  }

  lemma {:induction false} LessIrreflexive(a: Str)
    ensures !Less(a, a)
  {
    if a != [] { LessIrreflexive(a[1..]); }
  }

  lemma {:induction false} LessTotal(a: Str, b: Str)
    ensures a == b || Less(a, b) || Less(b, a)
  {
    if a != [] && b != [] {
      LessTotal(a[1..], b[1..]);
      assert a == [a[0]] + a[1..] && b == [b[0]] + b[1..];
    }
  }

  lemma {:induction false} LessTransitive(a: Str, b: Str, c: Str)
    requires Less(a, b) && Less(b, c)
    ensures Less(a, c)
  {
    if a != [] && a[0] == b[0] == c[0] { LessTransitive(a[1..], b[1..], c[1..]); }
  }

  lemma LessAsymmetric(a: Str, b: Str)
    requires Less(a, b)
    ensures a != b && !Less(b, a)
  {
    LessIrreflexive(a);
    if Less(b, a) { LessTransitive(a, b, a); }
  }

  lemma LessSingle(a: Str, c: byte)
    ensures Less(a, [c]) <==> a == [] || a[0] < c
  {
    assert [c][1..] == [];
  }

  /** Two strings with a common prefix compare like what follows it. */
  lemma {:induction false} LessAfterPrefix(p: Str, a: Str, b: Str)
    ensures Less(p + a, p + b) <==> Less(a, b)
  {
    if p == [] {
      assert p + a == a && p + b == b;
    } else {
      assert (p + a)[1..] == p[1..] + a && (p + b)[1..] == p[1..] + b;
      LessAfterPrefix(p[1..], a, b);
    }
  }

  // ---- Sorting by a string key ----

  /** The keys of s strictly increase (so they are distinct). */
  ghost predicate SortedBy<T(!new)>(key: T -> Str, s: seq<T>) {
    forall i, j :: 0 <= i < j < |s| ==> Less(key(s[i]), key(s[j]))
  }

  lemma NonemptyHasElement<T>(s: seq<T>)
    requires s != []
    ensures exists x :: x in s
  {
    assert s[0] in s;
  }

  /** A sorted sequence is determined by its elements: no result depends on the order in which a
      map was ranged over. */
  lemma {:induction false} SortedUnique<T(!new)>(key: T -> Str, s: seq<T>, t: seq<T>)
    requires SortedBy(key, s) && SortedBy(key, t)
    requires forall x :: x in s <==> x in t
    ensures s == t
  {
    if s == [] {
      if t != [] { NonemptyHasElement(t); }
    } else {
      assert s[0] in t;
      assert t[0] in s;
      var i :| 0 <= i < |t| && t[i] == s[0];
      var j :| 0 <= j < |s| && s[j] == t[0];
      if i > 0 && j > 0 { LessAsymmetric(key(t[0]), key(t[i])); }
      assert s[0] == t[0];
      LessIrreflexive(key(s[0]));
      forall x ensures x in s[1..] <==> x in t[1..] {
        if x in s[1..] { assert x in t && x != s[0]; }
        if x in t[1..] { assert x in s && x != t[0]; }
      }
      SortedUnique(key, s[1..], t[1..]);
      assert s == [s[0]] + s[1..] && t == [t[0]] + t[1..];
    }
  }

  /** One step of the sort: x goes before the first element whose key is not smaller. */
  function Insert<T(!new)>(key: T -> Str, s: seq<T>, x: T): (r: seq<T>)
    ensures multiset(r) == multiset(s) + multiset{x}
    ensures forall y :: y in r <==> y == x || y in s
    ensures |r| == |s| + 1
  {
    if s == [] then [x]
    else if Less(key(s[0]), key(x)) then
      assert s == [s[0]] + s[1..];
      [s[0]] + Insert(key, s[1..], x)
    else [x] + s
  }

  lemma {:induction false} InsertSorted<T(!new)>(key: T -> Str, s: seq<T>, x: T)
    requires SortedBy(key, s) && forall y :: y in s ==> key(y) != key(x)
    ensures SortedBy(key, Insert(key, s, x))
  {
    if s != [] {
      LessTotal(key(s[0]), key(x));
      assert s[0] in s;
      if Less(key(s[0]), key(x)) {
        InsertSorted(key, s[1..], x);
        forall y | y in Insert(key, s[1..], x) ensures Less(key(s[0]), key(y)) {}
      } else {
        forall i | 0 <= i < |s| ensures Less(key(x), key(s[i])) {
          if i > 0 { LessTransitive(key(x), key(s[0]), key(s[i])); }
        }
      }
    }
  }

  /** slices.Sort. */
  function Sort<T(!new)>(key: T -> Str, s: seq<T>): (r: seq<T>)
    ensures multiset(r) == multiset(s)
    ensures forall y :: y in r <==> y in s
    ensures |r| == |s|
  {
    if s == [] then []
    else
      assert s == [s[0]] + s[1..];
      Insert(key, Sort(key, s[1..]), s[0])
  }

  ghost predicate DistinctBy<T(!new)>(key: T -> Str, s: seq<T>) {
    forall i, j :: 0 <= i < j < |s| ==> key(s[i]) != key(s[j])
  }

  lemma SortedIsDistinct<T(!new)>(key: T -> Str, s: seq<T>)
    requires SortedBy(key, s)
    ensures DistinctBy(key, s)
  {
    forall i, j | 0 <= i < j < |s| ensures key(s[i]) != key(s[j]) { LessIrreflexive(key(s[i])); }
  }

  lemma {:induction false} SortSorted<T(!new)>(key: T -> Str, s: seq<T>)
    requires DistinctBy(key, s)
    ensures SortedBy(key, Sort(key, s))
  {
    if s != [] {
      SortSorted(key, s[1..]);
      InsertSorted(key, Sort(key, s[1..]), s[0]);
    }
  }

  /** The elements of a set in key order. */
  ghost function SortSet<T(!new)>(key: T -> Str, s: set<T>): (r: seq<T>)
    ensures forall x :: x in r <==> x in s
  {
    if s == {} then [] else
      var x :| x in s;
      Insert(key, SortSet(key, s - {x}), x)
  }

  lemma {:induction false} SortSetSorted<T(!new)>(key: T -> Str, s: set<T>)
    requires forall x, y :: x in s && y in s && x != y ==> key(x) != key(y)
    ensures SortedBy(key, SortSet(key, s))
  {
    if s != {} {
      var x :| x in s && SortSet(key, s) == Insert(key, SortSet(key, s - {x}), x);
      SortSetSorted(key, s - {x});
      InsertSorted(key, SortSet(key, s - {x}), x);
    }
  }

  function Self(s: Str): Str { s }

  /** SELECT ... ORDER BY rel_path: the strings of a set, sorted. */
  method OrderByPath(hits: set<Str>) returns (r: seq<Str>)
    ensures SortedBy(Self, r)
    ensures forall p :: p in r <==> p in hits
    ensures r == SortSet(Self, hits)
  {
    r := [];
    var rest := hits;
    while rest != {}
      invariant rest <= hits && SortedBy(Self, r)
      invariant forall p :: p in r <==> p in hits && p !in rest
      decreases rest
    {
      var p :| p in rest;
      rest := rest - {p};
      InsertSorted(Self, r, p);
      r := Insert(Self, r, p);
    }
    SortSetSorted(Self, hits);
    SortedUnique(Self, r, SortSet(Self, hits));
  }
}
