/** Sizes of finite sets of numbers. */
module SetFacts {

  lemma {:induction false} SubsetSize(a: set<nat>, b: set<nat>)
    requires a <= b
    ensures |a| <= |b|
  {
    if a != {} {
      var x :| x in a;
      SubsetSize(a - {x}, b - {x});
    }
  }

  /** A subset that is not smaller is the whole set. */
  lemma {:induction false} SubsetEqual(a: set<nat>, b: set<nat>)
    requires a <= b
    ensures |a| >= |b| ==> a == b
  {
    if x :| x in b && x !in a {
      SubsetSize(a, b - {x});
    }
  }
}
