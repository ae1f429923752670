/** Facts about finite sets that the solver does not find unaided. */
module FiniteSets {

  /** Some member of a non-empty set. */
  ghost function Pick<T>(s: set<T>): (c: T)
    requires s != {}
    ensures c in s
  {
    var c :| c in s;
    c
  }

  predicate InRange(c: int, n: int) { 0 <= c < n }

  /** The numbers from zero up to n. */
  ghost function Below(n: int): set<int> { set c | 0 <= c < n && InRange(c, n) }

  lemma {:induction false} BelowSize(n: nat)
    ensures |Below(n)| == n
  {
    if n > 0 {
      BelowSize(n - 1);
      assert Below(n) == Below(n - 1) + {n - 1};
    }
  }

  lemma {:induction false} SubsetSize<T>(a: set<T>, b: set<T>)
    requires a <= b
    ensures |a| <= |b|
    decreases a
  {
    if a != {} {
      var x := Pick(a);
      SubsetSize(a - {x}, b - {x});
    }
  }

  lemma FullSize<T>(a: set<T>, b: set<T>)
    requires a <= b && |a| >= |b|
    ensures a == b
  {
    if b - a != {} {
      var x := Pick(b - a);
      SubsetSize(a, b - {x});
    } else {
      assert forall x :: x in b ==> x in b - a || x in a;
    }
  }

  lemma DifferenceOfSmaller<T>(a: set<T>, b: set<T>)
    requires |b| < |a|
    ensures a - b != {}
  {
    if a - b == {} {
      assert forall x :: x in a ==> x in a - b || x in b;
      SubsetSize(a, b);
    }
  }
}
