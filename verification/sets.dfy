/** Sizes of finite sets. */
module Sets {
  lemma {:induction false} SmallerOrSame<T>(a: set<T>, b: set<T>)
    requires a <= b
    ensures |a| <= |b|
  {
    if a != {} {
      var x :| x in a;
      SmallerOrSame(a - {x}, b - {x});
    }
  }
}
