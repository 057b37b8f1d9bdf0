/** The membership score of the older pipeline: the share of pairs of a
    group whose distance reaches the membership cutoff, computed with
    integer division. */
module MergeStrategies {
  import opened Wrappers
  import opened Distances

  /** Pairs (order[i], order[k]) with i < k < j whose distance reaches the
      cutoff: the close pairs the inner loop has counted for row i. */
  function RowClose(order: seq<int>, dist: (int, int) -> real, cutoff: real, i: nat, j: nat): nat
    requires i < |order| && j <= |order|
  {
    if j <= i + 1 then 0
    else RowClose(order, dist, cutoff, i, j - 1) + (if dist(order[i], order[j - 1]) >= cutoff then 1 else 0)
  }

  /** Close pairs counted by the first i rows. */
  function CloseBefore(order: seq<int>, dist: (int, int) -> real, cutoff: real, i: nat): nat
    requires i <= |order|
  {
    if i == 0 then 0
    else CloseBefore(order, dist, cutoff, i - 1) + RowClose(order, dist, cutoff, i - 1, |order|)
  }

  /** Pairs visited by the first i rows of a group of n members: row r
      pairs member r with the n - 1 - r members after it. */
  function PairsBefore(n: nat, i: nat): nat
    requires i <= n
  {
    if i == 0 then 0 else PairsBefore(n, i - 1) + (n - i)
  }

  /** The membership score of a group enumerated in `order`: 0 when there is
      no pair, otherwise close pairs divided by all pairs in integer
      division, as `int / int` on non-negative counts. */
  function Membership(order: seq<int>, dist: (int, int) -> real, cutoff: real): real
  {
    var total := PairsBefore(|order|, |order|);
    if total == 0 then 0.0
    else (CloseBefore(order, dist, cutoff, |order|) / total) as real
  }

  /** Every pair of the order, the earlier member first, is close. */
  ghost predicate AllPairsClose(order: seq<int>, dist: (int, int) -> real, cutoff: real)
  {
    forall a, b :: 0 <= a < b < |order| ==> dist(order[a], order[b]) >= cutoff
  }

  /** Every two distinct members of the group are close. */
  ghost predicate AllClose(group: set<int>, dist: (int, int) -> real, cutoff: real)
  {
    forall x, y :: x in group && y in group && x != y ==> dist(x, y) >= cutoff
  }

  /** The score as a property of the group alone: 1 when it has a pair and
      all its pairs are close, else 0. */
  ghost function GroupMembership(group: set<int>, dist: (int, int) -> real, cutoff: real): real
  {
    if |group| >= 2 && AllClose(group, dist, cutoff) then 1.0 else 0.0
  }

  /** Row by row, i rows cover i(2n - i - 1)/2 pairs. */
  lemma {:induction false} PairsBeforeClosed(n: nat, i: nat)
    requires i <= n
    ensures 2 * PairsBefore(n, i) == i * (2 * n - i - 1)
  {
    if i > 0 {
      PairsBeforeClosed(n, i - 1);
      calc {
        2 * PairsBefore(n, i);
        2 * PairsBefore(n, i - 1) + 2 * (n - i);
        (i - 1) * (2 * n - i) + 2 * (n - i);
        i * (2 * n - i - 1);
      }
    }
  }

  /** The nested loops visit each unordered pair once: n(n - 1)/2 pairs, and
      none at all exactly when the group has fewer than two members. */
  lemma TotalPairs(n: nat)
    ensures 2 * PairsBefore(n, n) == n * (n - 1)
    ensures PairsBefore(n, n) == 0 <==> n < 2
  {
    PairsBeforeClosed(n, n);
    if n >= 2 {
      assert n * (n - 1) >= 2 * 1 by {
        assert n - 1 >= 1;
      }
    }
  }

  /** A row never counts more close pairs than it visits, and it counts all
      of them exactly when every pair of the row is close. */
  lemma {:induction false} RowCloseBounds(order: seq<int>, dist: (int, int) -> real, cutoff: real, i: nat, j: nat)
    requires i < j <= |order|
    ensures RowClose(order, dist, cutoff, i, j) <= j - i - 1
    ensures RowClose(order, dist, cutoff, i, j) == j - i - 1 <==>
            forall k :: i < k < j ==> dist(order[i], order[k]) >= cutoff
  {
    if j > i + 1 {
      RowCloseBounds(order, dist, cutoff, i, j - 1);
    }
  }

  /** The counted close pairs never exceed the visited pairs, and reach them
      exactly when every visited pair is close. */
  lemma {:induction false} CloseBeforeBounds(order: seq<int>, dist: (int, int) -> real, cutoff: real, i: nat)
    requires i <= |order|
    ensures CloseBefore(order, dist, cutoff, i) <= PairsBefore(|order|, i)
    ensures CloseBefore(order, dist, cutoff, i) == PairsBefore(|order|, i) <==>
            forall r, k :: 0 <= r < i && r < k < |order| ==> dist(order[r], order[k]) >= cutoff
  {
    if i > 0 {
      CloseBeforeBounds(order, dist, cutoff, i - 1);
      RowCloseBounds(order, dist, cutoff, i - 1, |order|);
    }
  }

  /** The score is never anything but 0 or 1, and it is 1 exactly when the
      group has a pair and every pair, the earlier member first, is close. */
  lemma MembershipZeroOrOne(order: seq<int>, dist: (int, int) -> real, cutoff: real)
    ensures Membership(order, dist, cutoff) == 0.0 || Membership(order, dist, cutoff) == 1.0
    ensures Membership(order, dist, cutoff) == 1.0 <==> |order| >= 2 && AllPairsClose(order, dist, cutoff)
    ensures |order| < 2 ==> Membership(order, dist, cutoff) == 0.0
  {
    var n := |order|;
    var total := PairsBefore(n, n);
    var close := CloseBefore(order, dist, cutoff, n);
    TotalPairs(n);
    CloseBeforeBounds(order, dist, cutoff, n);
    if total != 0 {
      if close == total {
        assert close / total == 1;
      } else {
        assert close / total == 0;
      }
    }
  }

  /** For a symmetric distance the score depends on the group only, not on
      the order it is enumerated in. */
  lemma MembershipOfGroup(group: set<int>, order: seq<int>, dist: (int, int) -> real, cutoff: real)
    requires Distinct(order) && Elements(order) == group
    requires SymmetricDistance(dist)
    ensures Membership(order, dist, cutoff) == GroupMembership(group, dist, cutoff)
  {
    MembershipZeroOrOne(order, dist, cutoff);
    DistinctCard(order);
    if AllPairsClose(order, dist, cutoff) {
      forall x, y | x in group && y in group && x != y
        ensures dist(x, y) >= cutoff
      {
        var a :| 0 <= a < |order| && order[a] == x;
        var b :| 0 <= b < |order| && order[b] == y;
        if b < a {
          assert dist(y, x) >= cutoff;
        }
      }
    }
    if AllClose(group, dist, cutoff) {
      forall a, b | 0 <= a < b < |order|
        ensures dist(order[a], order[b]) >= cutoff
      {
        assert order[a] in group && order[b] in group;
      }
    }
  }

  /** The older pipeline's strategy: a merge strategy and cutoff, and a
      membership strategy and cutoff. */
  datatype MergeStrategy = MergeStrategy(mergeStrategy: string, mergeCutoff: real,
                                         membershipStrategy: string, membershipCutoff: real)
  {
    /** Counts the pairs of the group, in its iteration order `order`, and
        those whose distance reaches the membership cutoff; the group itself
        is only read. */
    method CalculateMembership(clusterGroup: set<int>, order: seq<int>, distanceFunction: (int, int) -> real)
      returns (membershipScore: real)
      requires Distinct(order) && Elements(order) == clusterGroup
      ensures membershipScore == Membership(order, distanceFunction, membershipCutoff)
      ensures membershipScore == 0.0 || membershipScore == 1.0
      ensures SymmetricDistance(distanceFunction) ==>
                membershipScore == GroupMembership(clusterGroup, distanceFunction, membershipCutoff)
    {
      var n := |order|;
      var totalPairs: nat := 0;
      var significantClosePairs: nat := 0;
      var i := 0;
      while i < n
        invariant i <= n
        invariant totalPairs == PairsBefore(n, i)
        invariant significantClosePairs == CloseBefore(order, distanceFunction, membershipCutoff, i)
      {
        var j := i + 1;
        while j < n
          invariant i + 1 <= j <= n
          invariant totalPairs == PairsBefore(n, i) + (j - i - 1)
          invariant significantClosePairs == CloseBefore(order, distanceFunction, membershipCutoff, i)
                                           + RowClose(order, distanceFunction, membershipCutoff, i, j)
        {
          var termDistance := distanceFunction(order[i], order[j]);
          totalPairs := totalPairs + 1;
          if termDistance >= membershipCutoff {
            significantClosePairs := significantClosePairs + 1;
          }
          j := j + 1;
        }
        i := i + 1;
      }
      MembershipZeroOrOne(order, distanceFunction, membershipCutoff);
      if SymmetricDistance(distanceFunction) {
        MembershipOfGroup(clusterGroup, order, distanceFunction, membershipCutoff);
      }
      if totalPairs == 0 {
        return 0.0;
      }
      membershipScore := (significantClosePairs / totalPairs) as real;
    }
  }
}
