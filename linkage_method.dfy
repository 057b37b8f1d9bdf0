/** Linkage between two clusters of the newer pipeline: the least, the
    greatest or the mean distance over all pairs of one member of each
    cluster, chosen by name. */
module LinkageMethods {
  import opened Wrappers
  import opened Distances

  /** The starting value of `single`'s running minimum. */
  const SingleDefault: real := 100.0
  /** The starting value of `complete`'s running maximum. */
  const CompleteDefault: real := 0.0

  const DavidName: string := "david"
  const SingleName: string := "single"
  const CompleteName: string := "complete"
  const AverageName: string := "average"

  /** The distances from term x, as a function of the other term. */
  function Row(dist: (int, int) -> real, x: int): int -> real
  {
    y => dist(x, y)
  }

  // ----------------------------------------------------------------------
  // The loops, as folds over the iteration orders o1 and o2 of the two
  // clusters.

  /** The running minimum started at m over f on o[..j]: it is lowered only
      by a strictly smaller value. */
  function PrefixMin(o: seq<int>, f: int -> real, j: nat, m: real): real
    requires j <= |o|
  {
    if j == 0 then m
    else
      var r := PrefixMin(o, f, j - 1, m);
      if f(o[j - 1]) < r then f(o[j - 1]) else r
  }

  /** The running maximum started at m over f on o[..j]: it is raised only
      by a strictly larger value. */
  function PrefixMax(o: seq<int>, f: int -> real, j: nat, m: real): real
    requires j <= |o|
  {
    if j == 0 then m
    else
      var r := PrefixMax(o, f, j - 1, m);
      if f(o[j - 1]) > r then f(o[j - 1]) else r
  }

  /** The running sum of f over o[..j]. */
  function PrefixSum(o: seq<int>, f: int -> real, j: nat): real
    requires j <= |o|
  {
    if j == 0 then 0.0 else PrefixSum(o, f, j - 1) + f(o[j - 1])
  }

  /** `single`'s minimum after the first i rows. */
  function PairMin(o1: seq<int>, o2: seq<int>, dist: (int, int) -> real, i: nat): real
    requires i <= |o1|
  {
    if i == 0 then SingleDefault
    else PrefixMin(o2, Row(dist, o1[i - 1]), |o2|, PairMin(o1, o2, dist, i - 1))
  }

  /** `complete`'s maximum after the first i rows. */
  function PairMax(o1: seq<int>, o2: seq<int>, dist: (int, int) -> real, i: nat): real
    requires i <= |o1|
  {
    if i == 0 then CompleteDefault
    else PrefixMax(o2, Row(dist, o1[i - 1]), |o2|, PairMax(o1, o2, dist, i - 1))
  }

  /** The total distance of one row. */
  function RowTotals(o2: seq<int>, dist: (int, int) -> real): int -> real
  {
    x => PrefixSum(o2, Row(dist, x), |o2|)
  }

  // ----------------------------------------------------------------------
  // What the folds compute, stated on the clusters.

  /** r is the smaller of `init` and the least distance over c1 × c2. */
  ghost predicate IsLeastLink(c1: set<int>, c2: set<int>, dist: (int, int) -> real, init: real, r: real)
  {
    r <= init &&
    (forall x, y :: x in c1 && y in c2 ==> r <= dist(x, y)) &&
    (r == init || exists x, y :: x in c1 && y in c2 && r == dist(x, y))
  }

  /** r is the larger of `init` and the greatest distance over c1 × c2. */
  ghost predicate IsGreatestLink(c1: set<int>, c2: set<int>, dist: (int, int) -> real, init: real, r: real)
  {
    r >= init &&
    (forall x, y :: x in c1 && y in c2 ==> r >= dist(x, y)) &&
    (r == init || exists x, y :: x in c1 && y in c2 && r == dist(x, y))
  }

  lemma {:induction false} PrefixMinBelow(o: seq<int>, f: int -> real, j: nat, m: real)
    requires j <= |o|
    ensures PrefixMin(o, f, j, m) <= m
    ensures forall k :: 0 <= k < j ==> PrefixMin(o, f, j, m) <= f(o[k])
  {
    if j > 0 {
      PrefixMinBelow(o, f, j - 1, m);
    }
  }

  /** The running minimum is its start or one of the values seen, at the
      returned position k. */
  lemma {:induction false} PrefixMinWitness(o: seq<int>, f: int -> real, j: nat, m: real) returns (k: int)
    requires j <= |o|
    ensures PrefixMin(o, f, j, m) == m || (0 <= k < j && PrefixMin(o, f, j, m) == f(o[k]))
  {
    k := -1;
    if j > 0 {
      k := PrefixMinWitness(o, f, j - 1, m);
      if f(o[j - 1]) < PrefixMin(o, f, j - 1, m) {
        k := j - 1;
      }
    }
  }

  lemma {:induction false} PrefixMaxAbove(o: seq<int>, f: int -> real, j: nat, m: real)
    requires j <= |o|
    ensures PrefixMax(o, f, j, m) >= m
    ensures forall k :: 0 <= k < j ==> PrefixMax(o, f, j, m) >= f(o[k])
  {
    if j > 0 {
      PrefixMaxAbove(o, f, j - 1, m);
    }
  }

  /** The running maximum is its start or one of the values seen, at the
      returned position k. */
  lemma {:induction false} PrefixMaxWitness(o: seq<int>, f: int -> real, j: nat, m: real) returns (k: int)
    requires j <= |o|
    ensures PrefixMax(o, f, j, m) == m || (0 <= k < j && PrefixMax(o, f, j, m) == f(o[k]))
  {
    k := -1;
    if j > 0 {
      k := PrefixMaxWitness(o, f, j - 1, m);
      if f(o[j - 1]) > PrefixMax(o, f, j - 1, m) {
        k := j - 1;
      }
    }
  }

  /** After i rows `single` holds at most 100 and at most every distance of
      the pairs visited so far. */
  lemma {:induction false} PairMinBelow(o1: seq<int>, o2: seq<int>, dist: (int, int) -> real, i: nat)
    requires i <= |o1|
    ensures PairMin(o1, o2, dist, i) <= SingleDefault
    ensures forall a, b :: 0 <= a < i && 0 <= b < |o2| ==> PairMin(o1, o2, dist, i) <= dist(o1[a], o2[b])
  {
    if i > 0 {
      PairMinBelow(o1, o2, dist, i - 1);
      PrefixMinBelow(o2, Row(dist, o1[i - 1]), |o2|, PairMin(o1, o2, dist, i - 1));
    }
  }

  /** ... and it is 100 or the distance of the returned pair (a, b). */
  lemma {:induction false} PairMinWitness(o1: seq<int>, o2: seq<int>, dist: (int, int) -> real, i: nat)
    returns (a: int, b: int)
    requires i <= |o1|
    ensures PairMin(o1, o2, dist, i) == SingleDefault ||
            (0 <= a < i && 0 <= b < |o2| && PairMin(o1, o2, dist, i) == dist(o1[a], o2[b]))
  {
    a, b := -1, -1;
    if i > 0 {
      var m := PairMin(o1, o2, dist, i - 1);
      a, b := PairMinWitness(o1, o2, dist, i - 1);
      var k := PrefixMinWitness(o2, Row(dist, o1[i - 1]), |o2|, m);
      if PairMin(o1, o2, dist, i) != m {
        a, b := i - 1, k;
      }
    }
  }

  /** After i rows `complete` holds at least 0 and at least every distance
      of the pairs visited so far. */
  lemma {:induction false} PairMaxAbove(o1: seq<int>, o2: seq<int>, dist: (int, int) -> real, i: nat)
    requires i <= |o1|
    ensures PairMax(o1, o2, dist, i) >= CompleteDefault
    ensures forall a, b :: 0 <= a < i && 0 <= b < |o2| ==> PairMax(o1, o2, dist, i) >= dist(o1[a], o2[b])
  {
    if i > 0 {
      PairMaxAbove(o1, o2, dist, i - 1);
      PrefixMaxAbove(o2, Row(dist, o1[i - 1]), |o2|, PairMax(o1, o2, dist, i - 1));
    }
  }

  /** ... and it is 0 or the distance of the returned pair (a, b). */
  lemma {:induction false} PairMaxWitness(o1: seq<int>, o2: seq<int>, dist: (int, int) -> real, i: nat)
    returns (a: int, b: int)
    requires i <= |o1|
    ensures PairMax(o1, o2, dist, i) == CompleteDefault ||
            (0 <= a < i && 0 <= b < |o2| && PairMax(o1, o2, dist, i) == dist(o1[a], o2[b]))
  {
    a, b := -1, -1;
    if i > 0 {
      var m := PairMax(o1, o2, dist, i - 1);
      a, b := PairMaxWitness(o1, o2, dist, i - 1);
      var k := PrefixMaxWitness(o2, Row(dist, o1[i - 1]), |o2|, m);
      if PairMax(o1, o2, dist, i) != m {
        a, b := i - 1, k;
      }
    }
  }

  /** Whatever the iteration orders, `single` computes the least of 100 and
      all distances over the two clusters. */
  lemma PairMinIsLeast(o1: seq<int>, o2: seq<int>, c1: set<int>, c2: set<int>, dist: (int, int) -> real)
    requires Elements(o1) == c1 && Elements(o2) == c2
    ensures IsLeastLink(c1, c2, dist, SingleDefault, PairMin(o1, o2, dist, |o1|))
  {
    var r := PairMin(o1, o2, dist, |o1|);
    PairMinBelow(o1, o2, dist, |o1|);
    forall x, y | x in c1 && y in c2
      ensures r <= dist(x, y)
    {
      var a :| 0 <= a < |o1| && o1[a] == x;
      var b :| 0 <= b < |o2| && o2[b] == y;
    }
    var a, b := PairMinWitness(o1, o2, dist, |o1|);
    if r != SingleDefault {
      var x, y := o1[a], o2[b];
      assert x in c1 && y in c2 && r == dist(x, y);
    }
  }

  /** Whatever the iteration orders, `complete` computes the greatest of 0
      and all distances over the two clusters. */
  lemma PairMaxIsGreatest(o1: seq<int>, o2: seq<int>, c1: set<int>, c2: set<int>, dist: (int, int) -> real)
    requires Elements(o1) == c1 && Elements(o2) == c2
    ensures IsGreatestLink(c1, c2, dist, CompleteDefault, PairMax(o1, o2, dist, |o1|))
  {
    var r := PairMax(o1, o2, dist, |o1|);
    PairMaxAbove(o1, o2, dist, |o1|);
    forall x, y | x in c1 && y in c2
      ensures r >= dist(x, y)
    {
      var a :| 0 <= a < |o1| && o1[a] == x;
      var b :| 0 <= b < |o2| && o2[b] == y;
    }
    var a, b := PairMaxWitness(o1, o2, dist, |o1|);
    if r != CompleteDefault {
      var x, y := o1[a], o2[b];
      assert x in c1 && y in c2 && r == dist(x, y);
    }
  }

  /** The least link is determined by the clusters. */
  lemma LeastLinkUnique(c1: set<int>, c2: set<int>, dist: (int, int) -> real, init: real, r: real, r': real)
    requires IsLeastLink(c1, c2, dist, init, r) && IsLeastLink(c1, c2, dist, init, r')
    ensures r == r'
  {
    if r != init {
      var x, y :| x in c1 && y in c2 && r == dist(x, y);
    }
    if r' != init {
      var x, y :| x in c1 && y in c2 && r' == dist(x, y);
    }
  }

  /** The greatest link is determined by the clusters. */
  lemma GreatestLinkUnique(c1: set<int>, c2: set<int>, dist: (int, int) -> real, init: real, r: real, r': real)
    requires IsGreatestLink(c1, c2, dist, init, r) && IsGreatestLink(c1, c2, dist, init, r')
    ensures r == r'
  {
    if r != init {
      var x, y :| x in c1 && y in c2 && r == dist(x, y);
    }
    if r' != init {
      var x, y :| x in c1 && y in c2 && r' == dist(x, y);
    }
  }

  /** Some iteration order of a set. */
  ghost function SomeOrder(s: set<int>): (o: seq<int>)
    ensures Distinct(o) && Elements(o) == s
    decreases |s|
  {
    if s == {} then []
    else
      var x := Pick(s);
      var o := SomeOrder(s - {x});
      DistinctSnoc(o, x);
      o + [x]
  }

  /** Single linkage: the least of 100 and every distance over c1 × c2, so
      100 when either cluster is empty. */
  ghost function SingleLinkage(c1: set<int>, c2: set<int>, dist: (int, int) -> real): (r: real)
    ensures IsLeastLink(c1, c2, dist, SingleDefault, r)
    ensures c1 == {} || c2 == {} ==> r == SingleDefault
  {
    var o1, o2 := SomeOrder(c1), SomeOrder(c2);
    PairMinIsLeast(o1, o2, c1, c2, dist);
    PairMin(o1, o2, dist, |o1|)
  }

  /** Complete linkage: the greatest of 0 and every distance over c1 × c2,
      so 0 when either cluster is empty. */
  ghost function CompleteLinkage(c1: set<int>, c2: set<int>, dist: (int, int) -> real): (r: real)
    ensures IsGreatestLink(c1, c2, dist, CompleteDefault, r)
    ensures c1 == {} || c2 == {} ==> r == CompleteDefault
  {
    var o1, o2 := SomeOrder(c1), SomeOrder(c2);
    PairMaxIsGreatest(o1, o2, c1, c2, dist);
    PairMax(o1, o2, dist, |o1|)
  }

  // ----------------------------------------------------------------------
  // Sums over sets.

  /** The sum of f over a set. */
  ghost function SetSum(s: set<int>, f: int -> real): real
    decreases |s|
  {
    if s == {} then 0.0
    else
      var x := Pick(s);
      f(x) + SetSum(s - {x}, f)
  }

  /** Any element can be taken out of the sum first. */
  lemma SetSumRemove(s: set<int>, f: int -> real, y: int)
    requires y in s
    ensures SetSum(s, f) == f(y) + SetSum(s - {y}, f)
    decreases |s|
  {
    var x := Pick(s);
    if x != y {
      SetSumRemove(s - {x}, f, y);
      SetSumRemove(s - {y}, f, x);
      assert s - {x} - {y} == s - {y} - {x};
    }
  }

  /** Summing along an order without repeats sums over its elements. */
  lemma {:induction false} PrefixSumIsSetSum(o: seq<int>, f: int -> real, j: nat)
    requires Distinct(o) && j <= |o|
    ensures PrefixSum(o, f, j) == SetSum(Elements(o[..j]), f)
  {
    if j > 0 {
      PrefixSumIsSetSum(o, f, j - 1);
      var e := Elements(o[..j]);
      assert o[..j] == o[..j - 1] + [o[j - 1]];
      assert e == Elements(o[..j - 1]) + {o[j - 1]};
      assert o[j - 1] !in Elements(o[..j - 1]);
      assert e - {o[j - 1]} == Elements(o[..j - 1]);
      SetSumRemove(e, f, o[j - 1]);
    }
  }

  /** Two functions that agree along the order have the same running sum. */
  lemma {:induction false} PrefixSumCongruent(o: seq<int>, f: int -> real, g: int -> real, j: nat)
    requires j <= |o|
    requires forall k :: 0 <= k < j ==> f(o[k]) == g(o[k])
    ensures PrefixSum(o, f, j) == PrefixSum(o, g, j)
  {
    if j > 0 {
      PrefixSumCongruent(o, f, g, j - 1);
    }
  }

  /** n copies of v added up. */
  function Times(n: nat, v: real): real
  {
    if n == 0 then 0.0 else Times(n - 1, v) + v
  }

  /** n copies of v add up to n·v. */
  lemma {:induction false} TimesIsProduct(n: nat, v: real)
    ensures Times(n, v) == (n as real) * v
  {
    if n > 0 {
      TimesIsProduct(n - 1, v);
    }
  }

  /** Every term of the sum at least lo and at most hi bounds the sum. */
  lemma SetSumBounds(s: set<int>, f: int -> real, lo: real, hi: real)
    requires forall x :: x in s ==> lo <= f(x) <= hi
    ensures Times(|s|, lo) <= SetSum(s, f) <= Times(|s|, hi)
    decreases |s|
  {
    if s != {} {
      var x := Pick(s);
      SetSumRemove(s, f, x);
      SetSumBounds(s - {x}, f, lo, hi);
      assert |s - {x}| == |s| - 1;
    }
  }

  /** The total distance of one row, over a cluster. */
  ghost function RowSums(c2: set<int>, dist: (int, int) -> real): int -> real
  {
    x => SetSum(c2, Row(dist, x))
  }

  /** The sum of all distances over c1 × c2. */
  ghost function PairSum(c1: set<int>, c2: set<int>, dist: (int, int) -> real): real
  {
    SetSum(c1, RowSums(c2, dist))
  }

  /** Average linkage: the sum of the |c1|·|c2| distances over c1 × c2
      divided by their count. */
  ghost function AverageLinkage(c1: set<int>, c2: set<int>, dist: (int, int) -> real): (r: real)
    requires c1 != {} && c2 != {}
  {
    PairSum(c1, c2, dist) / ((|c1| * |c2|) as real)
  }

  /** Whatever the iteration orders, the running total of `average` is the
      sum of all distances over the two clusters. */
  lemma PrefixPairSum(o1: seq<int>, o2: seq<int>, c1: set<int>, c2: set<int>, dist: (int, int) -> real)
    requires Distinct(o1) && Elements(o1) == c1 && Distinct(o2) && Elements(o2) == c2
    ensures PrefixSum(o1, RowTotals(o2, dist), |o1|) == PairSum(c1, c2, dist)
  {
    forall k | 0 <= k < |o1|
      ensures RowTotals(o2, dist)(o1[k]) == RowSums(c2, dist)(o1[k])
    {
      PrefixSumIsSetSum(o2, Row(dist, o1[k]), |o2|);
      assert o2[..|o2|] == o2;
    }
    PrefixSumCongruent(o1, RowTotals(o2, dist), RowSums(c2, dist), |o1|);
    PrefixSumIsSetSum(o1, RowSums(c2, dist), |o1|);
    assert o1[..|o1|] == o1;
  }

  /** `average` visits |c1|·|c2| pairs. */
  lemma PairCount(o1: seq<int>, o2: seq<int>, c1: set<int>, c2: set<int>)
    requires Distinct(o1) && Elements(o1) == c1 && Distinct(o2) && Elements(o2) == c2
    ensures Index(|o2|, |o1|, 0) == |c1| * |c2|
  {
    IndexProduct(|o2|, |o1|, 0);
    DistinctCard(o1);
    DistinctCard(o2);
  }

  lemma QuotientBetween(sum: real, n: real, lo: real, hi: real)
    requires n > 0.0 && n * lo <= sum <= n * hi
    ensures lo <= sum / n <= hi
  {
  }

  /** For two non-empty clusters the average lies between the least and the
      greatest distance, so single <= average <= complete. */
  lemma LinkageOrder(c1: set<int>, c2: set<int>, dist: (int, int) -> real)
    requires c1 != {} && c2 != {}
    ensures SingleLinkage(c1, c2, dist) <= AverageLinkage(c1, c2, dist) <= CompleteLinkage(c1, c2, dist)
  {
    var lo, hi := SingleLinkage(c1, c2, dist), CompleteLinkage(c1, c2, dist);
    forall x | x in c1
      ensures Times(|c2|, lo) <= RowSums(c2, dist)(x) <= Times(|c2|, hi)
    {
      RowBounds(c2, dist, x, lo, hi);
    }
    SetSumBounds(c1, RowSums(c2, dist), Times(|c2|, lo), Times(|c2|, hi));
    ScaledBounds(PairSum(c1, c2, dist), |c1|, |c2|, lo, hi);
  }

  /** A row whose every distance lies in [lo, hi] sums to between |c2|·lo
      and |c2|·hi. */
  lemma RowBounds(c2: set<int>, dist: (int, int) -> real, x: int, lo: real, hi: real)
    requires forall y :: y in c2 ==> lo <= dist(x, y) <= hi
    ensures Times(|c2|, lo) <= RowSums(c2, dist)(x) <= Times(|c2|, hi)
  {
    SetSumBounds(c2, Row(dist, x), lo, hi);
  }

  lemma CastProduct(n1: nat, n2: nat)
    ensures (n1 * n2) as real == (n1 as real) * (n2 as real)
  {
  }

  lemma ScaledQuotient(sum: real, a: real, b: real, n: real, lo: real, hi: real)
    requires a > 0.0 && b > 0.0 && n == a * b
    requires a * (b * lo) <= sum <= a * (b * hi)
    ensures lo <= sum / n <= hi
  {
    assert a * (b * lo) == n * lo && a * (b * hi) == n * hi;
    QuotientBetween(sum, n, lo, hi);
  }

  lemma TimesTimes(n1: nat, n2: nat, v: real)
    ensures Times(n1, Times(n2, v)) == (n1 as real) * ((n2 as real) * v)
  {
    var row := Times(n2, v);
    TimesIsProduct(n2, v);
    TimesIsProduct(n1, row);
  }

  lemma ScaledBounds(sum: real, n1: nat, n2: nat, lo: real, hi: real)
    requires n1 > 0 && n2 > 0
    requires Times(n1, Times(n2, lo)) <= sum <= Times(n1, Times(n2, hi))
    ensures lo <= sum / ((n1 * n2) as real) <= hi
  {
    TimesTimes(n1, n2, lo);
    TimesTimes(n1, n2, hi);
    CastProduct(n1, n2);
    ScaledQuotient(sum, n1 as real, n2 as real, (n1 * n2) as real, lo, hi);
  }

  // ----------------------------------------------------------------------
  // Symmetry.

  /** With a symmetric distance, single linkage does not care which cluster
      comes first. */
  lemma SingleSymmetric(c1: set<int>, c2: set<int>, dist: (int, int) -> real)
    requires SymmetricDistance(dist)
    ensures SingleLinkage(c1, c2, dist) == SingleLinkage(c2, c1, dist)
  {
    var r := SingleLinkage(c1, c2, dist);
    if r != SingleDefault {
      var x, y :| x in c1 && y in c2 && r == dist(x, y);
      assert y in c2 && x in c1 && r == dist(y, x);
    }
    assert IsLeastLink(c2, c1, dist, SingleDefault, r);
    LeastLinkUnique(c2, c1, dist, SingleDefault, r, SingleLinkage(c2, c1, dist));
  }

  /** With a symmetric distance, complete linkage does not care which
      cluster comes first. */
  lemma CompleteSymmetric(c1: set<int>, c2: set<int>, dist: (int, int) -> real)
    requires SymmetricDistance(dist)
    ensures CompleteLinkage(c1, c2, dist) == CompleteLinkage(c2, c1, dist)
  {
    var r := CompleteLinkage(c1, c2, dist);
    if r != CompleteDefault {
      var x, y :| x in c1 && y in c2 && r == dist(x, y);
      assert y in c2 && x in c1 && r == dist(y, x);
    }
    assert IsGreatestLink(c2, c1, dist, CompleteDefault, r);
    GreatestLinkUnique(c2, c1, dist, CompleteDefault, r, CompleteLinkage(c2, c1, dist));
  }

  /** The distances to term y, as a function of the other term. */
  function Col(dist: (int, int) -> real, y: int): int -> real
  {
    x => dist(x, y)
  }

  /** The total distance of one column, over a cluster. */
  ghost function ColSums(c1: set<int>, dist: (int, int) -> real): int -> real
  {
    y => SetSum(c1, Col(dist, y))
  }

  function Plus(f: int -> real, g: int -> real): int -> real
  {
    x => f(x) + g(x)
  }

  /** Functions that agree on the set have the same sum over it. */
  lemma SetSumCongruent(s: set<int>, f: int -> real, g: int -> real)
    requires forall x :: x in s ==> f(x) == g(x)
    ensures SetSum(s, f) == SetSum(s, g)
    decreases |s|
  {
    if s != {} {
      SetSumCongruent(s - {Pick(s)}, f, g);
    }
  }

  /** The sum of a pointwise sum is the sum of the sums. */
  lemma SetSumPlus(s: set<int>, f: int -> real, g: int -> real)
    ensures SetSum(s, Plus(f, g)) == SetSum(s, f) + SetSum(s, g)
    decreases |s|
  {
    if s != {} {
      SetSumPlus(s - {Pick(s)}, f, g);
    }
  }

  /** Nothing but zeros sums to zero. */
  lemma SetSumZero(s: set<int>, f: int -> real)
    requires forall x :: x in s ==> f(x) == 0.0
    ensures SetSum(s, f) == 0.0
    decreases |s|
  {
    if s != {} {
      SetSumZero(s - {Pick(s)}, f);
    }
  }

  /** Summing c1 × c2 row by row or column by column gives the same total. */
  lemma SumByColumns(c1: set<int>, c2: set<int>, dist: (int, int) -> real)
    ensures PairSum(c1, c2, dist) == SetSum(c2, ColSums(c1, dist))
    decreases |c1|
  {
    if c1 == {} {
      SetSumZero(c2, ColSums(c1, dist));
    } else {
      var x := Pick(c1);
      var rest := c1 - {x};
      SetSumRemove(c1, RowSums(c2, dist), x);
      SumByColumns(rest, c2, dist);
      forall y | y in c2
        ensures ColSums(c1, dist)(y) == Plus(Row(dist, x), ColSums(rest, dist))(y)
      {
        SetSumRemove(c1, Col(dist, y), x);
      }
      SetSumCongruent(c2, ColSums(c1, dist), Plus(Row(dist, x), ColSums(rest, dist)));
      SetSumPlus(c2, Row(dist, x), ColSums(rest, dist));
    }
  }

  /** With a symmetric distance the pair total, and so average linkage, does
      not care which cluster comes first. */
  lemma AverageSymmetric(c1: set<int>, c2: set<int>, dist: (int, int) -> real)
    requires SymmetricDistance(dist)
    requires c1 != {} && c2 != {}
    ensures PairSum(c1, c2, dist) == PairSum(c2, c1, dist)
    ensures AverageLinkage(c1, c2, dist) == AverageLinkage(c2, c1, dist)
  {
    SumByColumns(c1, c2, dist);
    forall y | y in c2
      ensures RowSums(c1, dist)(y) == ColSums(c1, dist)(y)
    {
      SetSumCongruent(c1, Row(dist, y), Col(dist, y));
    }
    SetSumCongruent(c2, RowSums(c1, dist), ColSums(c1, dist));
    assert |c1| * |c2| == |c2| * |c1|;
  }

  // ----------------------------------------------------------------------
  // Dispatch and the linkage object.

  /** The linkage the named method computes: "david" and "single" compute
      single linkage, "complete" and "average" theirs, and any other name
      scores 0 without an error. */
  ghost function LinkageValue(name: string, c1: set<int>, c2: set<int>, dist: (int, int) -> real): real
    requires name == AverageName ==> c1 != {} && c2 != {}
  {
    if name == DavidName || name == SingleName then SingleLinkage(c1, c2, dist)
    else if name == CompleteName then CompleteLinkage(c1, c2, dist)
    else if name == AverageName then AverageLinkage(c1, c2, dist)
    else 0.0
  }

  /** With a symmetric distance, every linkage method is symmetric in its
      two clusters. */
  lemma LinkageValueSymmetric(name: string, c1: set<int>, c2: set<int>, dist: (int, int) -> real)
    requires name == AverageName ==> c1 != {} && c2 != {}
    requires SymmetricDistance(dist)
    ensures LinkageValue(name, c1, c2, dist) == LinkageValue(name, c2, c1, dist)
  {
    if name == DavidName || name == SingleName {
      SingleSymmetric(c1, c2, dist);
    } else if name == CompleteName {
      CompleteSymmetric(c1, c2, dist);
    } else if name == AverageName {
      AverageSymmetric(c1, c2, dist);
    }
  }

  /** `linkage` is the named method's linkage under `dist`, as a function
      of the two clusters (average linkage only where both are non-empty). */
  ghost predicate LinkageOf(linkage: (set<int>, set<int>) -> real, name: string, dist: (int, int) -> real)
  {
    forall c1, c2 {:trigger LinkageValue(name, c1, c2, dist)} ::
      (name == AverageName ==> c1 != {} && c2 != {}) ==> linkage(c1, c2) == LinkageValue(name, c1, c2, dist)
  }

  /** The named method's linkage under `dist` as a function value. */
  lemma MakeLinkage(name: string, dist: (int, int) -> real) returns (linkage: (set<int>, set<int>) -> real)
    ensures LinkageOf(linkage, name, dist)
  {
    linkage := (c1: set<int>, c2: set<int>) =>
      if name == AverageName ==> c1 != {} && c2 != {} then LinkageValue(name, c1, c2, dist) else 0.0;
  }

  /** A linkage method by name, a threshold, and the distance function it
      reads, which the pipeline loads once the distances are known. */
  class LinkageMethod {
    const linkageMethod: string
    const linkageThreshold: real
    var distanceFunction: (int, int) -> real
    /** Whether a distance function has been loaded; calling the empty
        `std::function` before that would throw. */
    ghost var loaded: bool
    /** The linkage this object computes, as a function of two clusters. */
    ghost var linkage: (set<int>, set<int>) -> real

    /** `linkage` is the named method's linkage under the distance
        function. */
    ghost predicate Valid()
      reads this
    {
      LinkageOf(linkage, linkageMethod, distanceFunction)
    }

    constructor(linkageMethod: string, linkageThreshold: real)
      ensures this.linkageMethod == linkageMethod && this.linkageThreshold == linkageThreshold
      ensures !loaded && Valid()
    {
      this.linkageMethod := linkageMethod;
      this.linkageThreshold := linkageThreshold;
      distanceFunction := (i: int, j: int) => 0.0;
      loaded := false;
      new;
      linkage := MakeLinkage(linkageMethod, distanceFunction);
    }

    /** A copy of `other`, as passing the object by value makes one. */
    constructor Copy(other: LinkageMethod)
      ensures linkageMethod == other.linkageMethod && linkageThreshold == other.linkageThreshold
      ensures distanceFunction == other.distanceFunction && loaded == other.loaded
      ensures Valid()
    {
      linkageMethod := other.linkageMethod;
      linkageThreshold := other.linkageThreshold;
      distanceFunction := other.distanceFunction;
      loaded := other.loaded;
      new;
      linkage := MakeLinkage(linkageMethod, distanceFunction);
    }

    method LoadDistanceFunction(distFct: (int, int) -> real)
      modifies this
      ensures distanceFunction == distFct && loaded && Valid()
    {
      distanceFunction := distFct;
      loaded := true;
      linkage := MakeLinkage(linkageMethod, distFct);
    }

    /** Dispatches on the method name. */
    method CalculateLinkage(cluster1: set<int>, cluster2: set<int>) returns (linkageScore: real)
      requires loaded
      requires linkageMethod == AverageName ==> cluster1 != {} && cluster2 != {}
      ensures linkageScore == LinkageValue(linkageMethod, cluster1, cluster2, distanceFunction)
      ensures Valid() ==> linkageScore == linkage(cluster1, cluster2)
      ensures linkageMethod !in {DavidName, SingleName, CompleteName, AverageName} ==> linkageScore == 0.0
    {
      linkageScore := 0.0;
      if linkageMethod == DavidName {
        linkageScore := Single(cluster1, cluster2);
      } else if linkageMethod == SingleName {
        linkageScore := Single(cluster1, cluster2);
      } else if linkageMethod == CompleteName {
        linkageScore := Complete(cluster1, cluster2);
      } else if linkageMethod == AverageName {
        linkageScore := Average(cluster1, cluster2);
      }
    }

    /** The running minimum, from 100, of the distances over both iteration
        orders.  The iterators compared by `i == j` belong to different
        sets, so no pair is skipped. */
    method Single(cluster1: set<int>, cluster2: set<int>) returns (minDist: real)
      requires loaded
      ensures minDist == SingleLinkage(cluster1, cluster2, distanceFunction)
    {
      var o1 := Enumerate(cluster1);
      var o2 := Enumerate(cluster2);
      minDist := SingleDefault;
      var i := 0;
      while i < |o1|
        invariant 0 <= i <= |o1|
        invariant minDist == PairMin(o1, o2, distanceFunction, i)
      {
        var t1 := o1[i];
        ghost var start := minDist;
        var j := 0;
        while j < |o2|
          invariant 0 <= j <= |o2|
          invariant minDist == PrefixMin(o2, Row(distanceFunction, t1), j, start)
        {
          var dist := distanceFunction(t1, o2[j]);
          if dist < minDist {
            minDist := dist;
          }
          j := j + 1;
        }
        i := i + 1;
      }
      PairMinIsLeast(o1, o2, cluster1, cluster2, distanceFunction);
      LeastLinkUnique(cluster1, cluster2, distanceFunction, SingleDefault, minDist,
                      SingleLinkage(cluster1, cluster2, distanceFunction));
    }

    /** The running maximum, from 0, of the distances over both iteration
        orders. */
    method Complete(cluster1: set<int>, cluster2: set<int>) returns (maxDist: real)
      requires loaded
      ensures maxDist == CompleteLinkage(cluster1, cluster2, distanceFunction)
    {
      var o1 := Enumerate(cluster1);
      var o2 := Enumerate(cluster2);
      maxDist := CompleteDefault;
      var i := 0;
      while i < |o1|
        invariant 0 <= i <= |o1|
        invariant maxDist == PairMax(o1, o2, distanceFunction, i)
      {
        var t1 := o1[i];
        ghost var start := maxDist;
        var j := 0;
        while j < |o2|
          invariant 0 <= j <= |o2|
          invariant maxDist == PrefixMax(o2, Row(distanceFunction, t1), j, start)
        {
          var dist := distanceFunction(t1, o2[j]);
          if dist > maxDist {
            maxDist := dist;
          }
          j := j + 1;
        }
        i := i + 1;
      }
      PairMaxIsGreatest(o1, o2, cluster1, cluster2, distanceFunction);
      GreatestLinkUnique(cluster1, cluster2, distanceFunction, CompleteDefault, maxDist,
                         CompleteLinkage(cluster1, cluster2, distanceFunction));
    }

    /** The total of the distances over both iteration orders divided by
        their count; an empty cluster would divide by a zero count. */
    method Average(cluster1: set<int>, cluster2: set<int>) returns (r: real)
      requires loaded
      requires cluster1 != {} && cluster2 != {}
      ensures r == AverageLinkage(cluster1, cluster2, distanceFunction)
    {
      var distFct := distanceFunction;
      var o1 := Enumerate(cluster1);
      var o2 := Enumerate(cluster2);
      var totalDist := 0.0;
      var nTerms: nat := 0;
      var i := 0;
      while i < |o1|
        invariant 0 <= i <= |o1|
        invariant totalDist == PrefixSum(o1, RowTotals(o2, distFct), i)
        invariant nTerms == Index(|o2|, i, 0)
      {
        var t1 := o1[i];
        ghost var rowStart, countStart := totalDist, nTerms;
        var j := 0;
        while j < |o2|
          invariant 0 <= j <= |o2|
          invariant totalDist == rowStart + PrefixSum(o2, Row(distFct, t1), j)
          invariant nTerms == countStart + j
        {
          var dist := distFct(t1, o2[j]);
          totalDist := totalDist + dist;
          nTerms := nTerms + 1;
          j := j + 1;
        }
        i := i + 1;
      }
      PrefixPairSum(o1, o2, cluster1, cluster2, distFct);
      PairCount(o1, o2, cluster1, cluster2);
      r := totalDist / (nTerms as real);
    }
  }
}
