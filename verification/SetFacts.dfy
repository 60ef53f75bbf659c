/** Finite sets: sums over positions, sizes of subsets, ranges and images. */
module SetFacts {

  /** The sum of weight[i] over the positions i in s. */
  ghost function Sum(s: set<nat>, weight: seq<int>): int
    requires forall i :: i in s ==> i < |weight|
  {
    if s == {} then 0 else
    var i :| i in s;
    weight[i] + Sum(s - {i}, weight)
  }

  /** Any element may be taken out first. */
  lemma {:induction false} SumSplit(s: set<nat>, weight: seq<int>, x: nat)
    requires forall i :: i in s ==> i < |weight|
    requires x in s
    ensures Sum(s, weight) == weight[x] + Sum(s - {x}, weight)
    decreases s
  {
    var i :| i in s && Sum(s, weight) == weight[i] + Sum(s - {i}, weight);
    if i != x {
      SumSplit(s - {i}, weight, x);
      SumSplit(s - {x}, weight, i);
      assert s - {i} - {x} == s - {x} - {i};
    }
  }

  /** The cardinality of a subset never exceeds that of the set; equality only for the set itself. */
  lemma {:induction false} SubsetSize<T>(a: set<T>, b: set<T>)
    requires a <= b
    ensures |a| <= |b|
    ensures |a| == |b| ==> a == b
  {
    assert b == a + (b - a);
    assert |b| == |a| + |b - a|;
  }

  lemma ExtraMember<T>(a: set<T>, x: T, b: set<T>)
    requires a <= b && x in b && x !in a
    ensures |b| >= |a| + 1
  {
    SubsetSize(a + {x}, b);
  }

  predicate Below(n: nat, x: nat) {
    x < n
  }

  /** The numbers 0, ..., n-1. */
  ghost function Range(n: nat): set<nat> {
    set x: nat | x < n && Below(n, x)
  }

  lemma {:induction false} RangeSize(n: nat)
    ensures |Range(n)| == n
    ensures forall x: nat :: x in Range(n) <==> x < n
  {
    assert forall x: nat :: x < n ==> Below(n, x);
    if n > 0 {
      RangeSize(n - 1);
      assert Range(n) == Range(n - 1) + {n - 1};
    }
  }

  ghost function Image<T, U>(s: set<T>, f: T -> U): set<U> {
    set x | x in s :: f(x)
  }

  /** A one-to-one image has as many members as the set. */
  lemma {:induction false} ImageSize<T, U>(s: set<T>, f: T -> U)
    requires forall x, y :: x in s && y in s && f(x) == f(y) ==> x == y
    ensures |Image(s, f)| == |s|
    decreases s
  {
    if s != {} {
      var x :| x in s;
      ImageSize(s - {x}, f);
      assert Image(s, f) == Image(s - {x}, f) + {f(x)};
    }
  }
}
