/** The list of clusters both pipelines grow and merge: a `std::list` of
    `std::unordered_set<int>` clusters of term indices.  List positions stand
    for the list's iterators. */
module ClusterLists {
  import opened Wrappers
  import opened NeighborMaps
  import opened MergeStrategies

  type Cluster = set<int>

  /** Every term some cluster of the list holds. */
  ghost function Members(clusters: seq<Cluster>): set<int>
  {
    set k, x | 0 <= k < |clusters| && x in clusters[k] :: x
  }

  /** The list with the cluster at position k erased. */
  function RemoveAt(clusters: seq<Cluster>, k: nat): (r: seq<Cluster>)
    requires k < |clusters|
    ensures |r| == |clusters| - 1
    ensures forall p :: 0 <= p < k ==> r[p] == clusters[p]
    ensures forall p :: k <= p < |r| ==> r[p] == clusters[p + 1]
  {
    clusters[..k] + clusters[k + 1..]
  }

  lemma MembersAppend(clusters: seq<Cluster>, c: Cluster)
    ensures Members(clusters + [c]) == Members(clusters) + c
  {
    var s := clusters + [c];
    forall x | x in Members(s)
      ensures x in Members(clusters) + c
    {
      var k :| 0 <= k < |s| && x in s[k];
      if k < |clusters| {
        assert x in clusters[k];
      }
    }
    forall x | x in Members(clusters) + c
      ensures x in Members(s)
    {
      if x in c {
        assert x in s[|clusters|];
      } else {
        var k :| 0 <= k < |clusters| && x in clusters[k];
        assert x in s[k];
      }
    }
  }

  /** Erasing a cluster loses at most the terms it held. */
  lemma MembersRemoveAt(clusters: seq<Cluster>, k: nat)
    requires k < |clusters|
    ensures Members(RemoveAt(clusters, k)) + clusters[k] == Members(clusters)
  {
    var r := RemoveAt(clusters, k);
    forall x | x in Members(r)
      ensures x in Members(clusters)
    {
      var p :| 0 <= p < |r| && x in r[p];
      if p < k {
        assert x in clusters[p];
      } else {
        assert x in clusters[p + 1];
      }
    }
    forall x | x in clusters[k]
      ensures x in Members(clusters)
    {
      var c := clusters[k];
      assert x in c;
    }
    forall x | x in Members(clusters) && x !in clusters[k]
      ensures x in Members(r)
    {
      var p :| 0 <= p < |clusters| && x in clusters[p];
      if p < k {
        assert x in r[p];
      } else {
        assert p != k;
        assert x in r[p - 1];
      }
    }
  }

  /** The in-place merge of `ClusterList::mergeClusters(it1, it2)`: the
      cluster at i absorbs the one at j, which is then erased. */
  function MergeAt(clusters: seq<Cluster>, i: nat, j: nat): (r: seq<Cluster>)
    requires i < |clusters| && j < |clusters| && i != j
    ensures |r| == |clusters| - 1
  {
    RemoveAt(clusters[i := clusters[i] + clusters[j]], j)
  }

  /** Where the clusters of the list sit after an in-place merge: the
      merged cluster keeps its place among the others, the absorbed one is
      gone, and every other cluster moves up past the gap. */
  function Shifted(k: nat, j: nat): nat
    requires k != j
  {
    if k < j then k else k - 1
  }

  lemma MergeAtPlaces(clusters: seq<Cluster>, i: nat, j: nat)
    requires i < |clusters| && j < |clusters| && i != j
    ensures MergeAt(clusters, i, j)[Shifted(i, j)] == clusters[i] + clusters[j]
    ensures forall k :: 0 <= k < |clusters| && k != i && k != j ==>
              MergeAt(clusters, i, j)[Shifted(k, j)] == clusters[k]
  {
  }

  /** A merge keeps every term in some cluster. */
  lemma MergeAtMembers(clusters: seq<Cluster>, i: nat, j: nat)
    requires i < |clusters| && j < |clusters| && i != j
    ensures Members(MergeAt(clusters, i, j)) == Members(clusters)
  {
    var grown := clusters[i := clusters[i] + clusters[j]];
    MembersRemoveAt(grown, j);
    assert grown[j] == clusters[j];
    forall x | x in Members(grown)
      ensures x in Members(clusters)
    {
      var p :| 0 <= p < |grown| && x in grown[p];
      if p == i && x !in clusters[i] {
        assert x in clusters[j];
      } else {
        assert x in clusters[p];
      }
    }
    forall x | x in Members(clusters)
      ensures x in Members(grown)
    {
      var p :| 0 <= p < |clusters| && x in clusters[p];
      assert x in grown[p];
    }
    forall x | x in clusters[j]
      ensures x in Members(MergeAt(clusters, i, j))
    {
      assert x in MergeAt(clusters, i, j)[Shifted(i, j)];
    }
  }

  /** The merge of the older pipeline: both clusters erased, their union
      appended at the back. */
  function MergeToBack(clusters: seq<Cluster>, i: nat, j: nat): (r: seq<Cluster>)
    requires i < |clusters| && j < |clusters| && i != j
    ensures |r| == |clusters| - 1
    ensures r[|r| - 1] == clusters[i] + clusters[j]
  {
    RemoveAt(RemoveAt(clusters, i), Shifted(j, i)) + [clusters[i] + clusters[j]]
  }

  lemma MergeToBackMembers(clusters: seq<Cluster>, i: nat, j: nat)
    requires i < |clusters| && j < |clusters| && i != j
    ensures Members(MergeToBack(clusters, i, j)) == Members(clusters)
  {
    var once := RemoveAt(clusters, i);
    MembersRemoveAt(clusters, i);
    assert once[Shifted(j, i)] == clusters[j];
    MembersRemoveAt(once, Shifted(j, i));
    MembersAppend(RemoveAt(once, Shifted(j, i)), clusters[i] + clusters[j]);
  }

  // Merging only unites clusters: every cluster of a merged list is the
  // union of a group of clusters of the list it came from, the groups
  // being non-empty and disjoint and covering the list.

  /** The union of the clusters of `before` whose position `owner` sends
      to position k. */
  ghost function GroupUnion(before: seq<Cluster>, owner: seq<int>, k: int): Cluster
    requires |owner| == |before|
  {
    set p, x | 0 <= p < |before| && owner[p] == k && x in before[p] :: x
  }

  /** `owner` gathers the clusters of `before` into those of `after`: it
      sends every position of `before` to a position of `after`, every
      position of `after` receives at least one, and each cluster of
      `after` is the union of those it receives. */
  ghost predicate GroupedBy(before: seq<Cluster>, after: seq<Cluster>, owner: seq<int>)
  {
    |owner| == |before| &&
    (forall p :: 0 <= p < |before| ==> 0 <= owner[p] < |after|) &&
    (forall k :: 0 <= k < |after| ==> k in owner && after[k] == GroupUnion(before, owner, k))
  }

  /** `after` is `before` with its clusters gathered into groups, each
      group replaced by its union. */
  ghost predicate Coarsens(before: seq<Cluster>, after: seq<Cluster>)
  {
    exists owner :: GroupedBy(before, after, owner)
  }

  /** A group of one position is the cluster there. */
  lemma GroupOfOne(before: seq<Cluster>, owner: seq<int>, k: int, q: nat)
    requires |owner| == |before| && q < |before| && owner[q] == k
    requires forall p :: 0 <= p < |before| && owner[p] == k ==> p == q
    ensures GroupUnion(before, owner, k) == before[q]
  {
    forall x | x in before[q]
      ensures x in GroupUnion(before, owner, k)
    {
    }
  }

  /** A group of two positions is the union of the clusters there. */
  lemma GroupOfTwo(before: seq<Cluster>, owner: seq<int>, k: int, q1: nat, q2: nat)
    requires |owner| == |before| && q1 < |before| && q2 < |before| && owner[q1] == k && owner[q2] == k
    requires forall p :: 0 <= p < |before| && owner[p] == k ==> p == q1 || p == q2
    ensures GroupUnion(before, owner, k) == before[q1] + before[q2]
  {
    forall x | x in before[q1] + before[q2]
      ensures x in GroupUnion(before, owner, k)
    {
      if x in before[q1] {
        assert owner[q1] == k;
      } else {
        assert owner[q2] == k;
      }
    }
  }

  /** Every list is a coarsening of itself: each cluster its own group. */
  lemma CoarsensRefl(clusters: seq<Cluster>)
    ensures Coarsens(clusters, clusters)
  {
    var owner := seq(|clusters|, p => p);
    forall k | 0 <= k < |clusters|
      ensures k in owner && clusters[k] == GroupUnion(clusters, owner, k)
    {
      assert owner[k] == k;
      GroupOfOne(clusters, owner, k, k);
    }
    assert GroupedBy(clusters, clusters, owner);
  }

  /** A coarsening of a coarsening is a coarsening: the groups of the
      second are made of groups of the first. */
  lemma CoarsensTrans(a: seq<Cluster>, b: seq<Cluster>, c: seq<Cluster>)
    requires Coarsens(a, b) && Coarsens(b, c)
    ensures Coarsens(a, c)
  {
    var o1 :| GroupedBy(a, b, o1);
    var o2 :| GroupedBy(b, c, o2);
    var o := seq(|a|, p => if 0 <= p < |a| then o2[o1[p]] else 0);
    forall k | 0 <= k < |c|
      ensures k in o && c[k] == GroupUnion(a, o, k)
    {
      ComposedGroup(a, b, c, o1, o2, o, k);
    }
    assert GroupedBy(a, c, o);
  }

  lemma ComposedGroup(a: seq<Cluster>, b: seq<Cluster>, c: seq<Cluster>, o1: seq<int>, o2: seq<int>, o: seq<int>,
                      k: int)
    requires GroupedBy(a, b, o1) && GroupedBy(b, c, o2) && 0 <= k < |c|
    requires |o| == |a| && forall p :: 0 <= p < |a| ==> o[p] == o2[o1[p]]
    ensures k in o && c[k] == GroupUnion(a, o, k)
  {
    assert c[k] == GroupUnion(b, o2, k) && k in o2;
    var q :| 0 <= q < |o2| && o2[q] == k;
    assert b[q] == GroupUnion(a, o1, q) && q in o1;
    var p0 :| 0 <= p0 < |o1| && o1[p0] == q;
    assert o[p0] == k;
    forall x | x in c[k]
      ensures x in GroupUnion(a, o, k)
    {
      var q1 :| 0 <= q1 < |b| && o2[q1] == k && x in b[q1];
      assert b[q1] == GroupUnion(a, o1, q1);
      var p1 :| 0 <= p1 < |a| && o1[p1] == q1 && x in a[p1];
      assert o[p1] == k;
    }
    forall x | x in GroupUnion(a, o, k)
      ensures x in c[k]
    {
      var p1 :| 0 <= p1 < |a| && o[p1] == k && x in a[p1];
      var q1 := o1[p1];
      assert x in GroupUnion(a, o1, q1);
      assert x in b[q1] && o2[q1] == k;
      assert x in GroupUnion(b, o2, k);
    }
  }

  /** Where `MergeAt(clusters, i, j)` puts the cluster at each position p:
      j goes where i goes, and every position after j moves up one. */
  function MergeAtOwner(n: nat, i: nat, j: nat): seq<int>
  {
    seq(n, p => if p == j then (if i < j then i else i - 1) else if p < j then p else p - 1)
  }

  /** An in-place merge makes a coarsening: the two positions merged form
      one group, every other cluster a group of its own. */
  lemma MergeAtCoarsens(clusters: seq<Cluster>, i: nat, j: nat)
    requires i < |clusters| && j < |clusters| && i != j
    ensures Coarsens(clusters, MergeAt(clusters, i, j))
  {
    var r := MergeAt(clusters, i, j);
    var o := MergeAtOwner(|clusters|, i, j);
    forall k | 0 <= k < |r|
      ensures k in o && r[k] == GroupUnion(clusters, o, k)
    {
      MergeAtGroup(clusters, i, j, r, o, k);
    }
    assert GroupedBy(clusters, r, o);
  }

  lemma MergeAtGroup(clusters: seq<Cluster>, i: nat, j: nat, r: seq<Cluster>, o: seq<int>, k: nat)
    requires i < |clusters| && j < |clusters| && i != j
    requires r == MergeAt(clusters, i, j) && o == MergeAtOwner(|clusters|, i, j) && k < |r|
    ensures k in o && r[k] == GroupUnion(clusters, o, k)
  {
    var q := if k < j then k else k + 1;
    assert o[q] == k;
    if q == i {
      assert r[k] == clusters[i] + clusters[j];
      GroupOfTwo(clusters, o, k, i, j);
    } else {
      assert r[k] == clusters[q];
      GroupOfOne(clusters, o, k, q);
    }
  }

  /** Where `MergeToBack(clusters, i, j)` puts the cluster at each position
      p: i and j go to the back, every other cluster moves up past the
      positions of i and j. */
  function MergeToBackOwner(n: nat, i: nat, j: nat): seq<int>
  {
    var j1 := if j < i then j else j - 1;
    seq(n, p => if p == i || p == j then n - 2
                else var p1 := if p < i then p else p - 1; if p1 < j1 then p1 else p1 - 1)
  }

  /** Merging to the back makes a coarsening: the two positions merged
      form the last group, every other cluster a group of its own. */
  lemma MergeToBackCoarsens(clusters: seq<Cluster>, i: nat, j: nat)
    requires i < |clusters| && j < |clusters| && i != j
    ensures Coarsens(clusters, MergeToBack(clusters, i, j))
  {
    var r := MergeToBack(clusters, i, j);
    var o := MergeToBackOwner(|clusters|, i, j);
    forall k | 0 <= k < |r|
      ensures k in o && r[k] == GroupUnion(clusters, o, k)
    {
      MergeToBackGroup(clusters, i, j, r, o, k);
    }
    assert GroupedBy(clusters, r, o);
  }

  /** The group of position k after a merge to the back. */
  lemma MergeToBackGroup(clusters: seq<Cluster>, i: nat, j: nat, r: seq<Cluster>, o: seq<int>, k: nat)
    requires i < |clusters| && j < |clusters| && i != j
    requires r == MergeToBack(clusters, i, j) && o == MergeToBackOwner(|clusters|, i, j) && k < |r|
    ensures k in o && r[k] == GroupUnion(clusters, o, k)
  {
    var n := |clusters|;
    if k == n - 2 {
      assert o[i] == k && o[j] == k;
      GroupOfTwo(clusters, o, k, i, j);
    } else {
      var q := MergeToBackSource(clusters, i, j, k);
      GroupOfOne(clusters, o, k, q);
    }
  }

  /** The position q that position k, short of the back, comes from after
      a merge to the back. */
  lemma MergeToBackSource(clusters: seq<Cluster>, i: nat, j: nat, k: nat) returns (q: nat)
    requires i < |clusters| && j < |clusters| && i != j && k < |clusters| - 2
    ensures q < |clusters| && q != i && q != j
    ensures MergeToBack(clusters, i, j)[k] == clusters[q] && MergeToBackOwner(|clusters|, i, j)[q] == k
  {
    var once := RemoveAt(clusters, i);
    var j1 := Shifted(j, i);
    var rest := RemoveAt(once, j1);
    var m := if k < j1 then k else k + 1;
    q := if m < i then m else m + 1;
    assert MergeToBack(clusters, i, j)[k] == rest[k];
    assert rest[k] == once[m];
  }

  /** The membership of the union of clusters i and j, with the union
      traversed in its iteration order. */
  function MergeScore(clusters: seq<Cluster>, i: nat, j: nat, ms: MergeStrategy,
                      dist: (int, int) -> real, orderOf: set<int> -> seq<int>): real
    requires i < |clusters| && j < |clusters|
  {
    Membership(orderOf(clusters[i] + clusters[j]), dist, ms.membershipCutoff)
  }

  /** Starting value of the best membership seen in a partner scan. */
  const NoMembership := -99.0

  datatype Candidate = Candidate(index: int, membership: real)

  /** The partner scan of cluster i over positions 0 .. upto-1: a candidate
      whose merged membership reaches the cutoff replaces the best so far
      when it is at least as good, so the last of the best wins. */
  function PartnerScan(clusters: seq<Cluster>, i: nat, ms: MergeStrategy, dist: (int, int) -> real,
                       orderOf: set<int> -> seq<int>, upto: nat): Candidate
    requires i < |clusters| && upto <= |clusters|
  {
    if upto == 0 then Candidate(-1, NoMembership)
    else
      var best := PartnerScan(clusters, i, ms, dist, orderOf, upto - 1);
      var j := upto - 1;
      if j == i then best
      else
        var m := MergeScore(clusters, i, j, ms, dist, orderOf);
        if m >= ms.membershipCutoff && m >= best.membership then Candidate(j, m) else best
  }

  /** What the scan finds: no partner exactly when no other cluster merges
      with cluster i to a membership reaching the cutoff; otherwise another
      cluster whose merged membership reaches the cutoff and is the largest,
      with no later cluster equally good. */
  lemma {:induction false} PartnerScanFacts(clusters: seq<Cluster>, i: nat, ms: MergeStrategy,
                                            dist: (int, int) -> real, orderOf: set<int> -> seq<int>, upto: nat)
    requires i < |clusters| && upto <= |clusters|
    ensures var r := PartnerScan(clusters, i, ms, dist, orderOf, upto);
            (r.index == -1 <==>
               forall j :: 0 <= j < upto && j != i ==> MergeScore(clusters, i, j, ms, dist, orderOf) < ms.membershipCutoff)
    ensures var r := PartnerScan(clusters, i, ms, dist, orderOf, upto);
            r.index == -1 ==> r.membership == NoMembership
    ensures var r := PartnerScan(clusters, i, ms, dist, orderOf, upto);
            r.index != -1 ==>
              0 <= r.index < upto && r.index != i &&
              r.membership == MergeScore(clusters, i, r.index, ms, dist, orderOf) &&
              r.membership >= ms.membershipCutoff
    ensures var r := PartnerScan(clusters, i, ms, dist, orderOf, upto);
            r.index != -1 ==>
              forall j :: 0 <= j < upto && j != i && MergeScore(clusters, i, j, ms, dist, orderOf) >= ms.membershipCutoff ==>
                MergeScore(clusters, i, j, ms, dist, orderOf) <= r.membership &&
                (j > r.index ==> MergeScore(clusters, i, j, ms, dist, orderOf) < r.membership)
  {
    if upto > 0 {
      PartnerScanFacts(clusters, i, ms, dist, orderOf, upto - 1);
      if upto - 1 != i {
        MembershipZeroOrOne(orderOf(clusters[i] + clusters[upto - 1]), dist, ms.membershipCutoff);
      }
    }
  }

  /** No two clusters of the list merge to a membership reaching the cutoff. */
  ghost predicate NoMergePartner(clusters: seq<Cluster>, ms: MergeStrategy, dist: (int, int) -> real,
                                 orderOf: set<int> -> seq<int>)
  {
    forall i, j :: 0 <= i < |clusters| && 0 <= j < |clusters| && i != j ==>
      MergeScore(clusters, i, j, ms, dist, orderOf) < ms.membershipCutoff
  }

  /** The first position from a on whose partner scan finds a partner;
      -1 when there is none. */
  function FirstWithPartner(clusters: seq<Cluster>, ms: MergeStrategy, dist: (int, int) -> real,
                            orderOf: set<int> -> seq<int>, a: nat): int
    decreases |clusters| - a
  {
    if a >= |clusters| then -1
    else if PartnerScan(clusters, a, ms, dist, orderOf, |clusters|).index != -1 then a
    else FirstWithPartner(clusters, ms, dist, orderOf, a + 1)
  }

  /** -1 exactly when no position from a on has a partner; otherwise a
      position with a partner, and none before it from a on has one. */
  lemma {:induction false} FirstWithPartnerFacts(clusters: seq<Cluster>, ms: MergeStrategy, dist: (int, int) -> real,
                                                 orderOf: set<int> -> seq<int>, a: nat)
    ensures var r := FirstWithPartner(clusters, ms, dist, orderOf, a);
            (r == -1 <==> forall b :: a <= b < |clusters| ==> PartnerScan(clusters, b, ms, dist, orderOf, |clusters|).index == -1) &&
            (r != -1 ==> a <= r < |clusters| && PartnerScan(clusters, r, ms, dist, orderOf, |clusters|).index != -1 &&
                         forall b :: a <= b < r ==> PartnerScan(clusters, b, ms, dist, orderOf, |clusters|).index == -1)
    decreases |clusters| - a
  {
    if a < |clusters| {
      var here := PartnerScan(clusters, a, ms, dist, orderOf, |clusters|).index;
      if here == -1 {
        FirstWithPartnerFacts(clusters, ms, dist, orderOf, a + 1);
        if forall b :: a + 1 <= b < |clusters| ==> PartnerScan(clusters, b, ms, dist, orderOf, |clusters|).index == -1 {
          forall b | a <= b < |clusters|
            ensures PartnerScan(clusters, b, ms, dist, orderOf, |clusters|).index == -1
          {
            if b != a {
              assert a + 1 <= b;
            }
          }
        }
      } else {
        assert FirstWithPartner(clusters, ms, dist, orderOf, a) == a;
        assert a <= a < |clusters| && PartnerScan(clusters, a, ms, dist, orderOf, |clusters|).index != -1;
      }
    }
  }

  /** What the older pipeline's merge loop leaves: as long as some cluster
      has a partner, the first such cluster and the partner its scan finds
      are replaced by their union at the back of the list. */
  function MergedByMembership(clusters: seq<Cluster>, ms: MergeStrategy, dist: (int, int) -> real,
                              orderOf: set<int> -> seq<int>): seq<Cluster>
    decreases |clusters|
  {
    var i := FirstWithPartner(clusters, ms, dist, orderOf, 0);
    FirstWithPartnerFacts(clusters, ms, dist, orderOf, 0);
    if i == -1 then clusters
    else
      var j := PartnerScan(clusters, i, ms, dist, orderOf, |clusters|).index;
      PartnerScanFacts(clusters, i, ms, dist, orderOf, |clusters|);
      MergedByMembership(MergeToBack(clusters, i, j), ms, dist, orderOf)
  }

  /** The merged list holds the same terms, every cluster of it is the
      union of a group of input clusters, no two of its clusters merge to a
      membership reaching the cutoff, and a list already in that state is
      left as it is. */
  lemma {:induction false} MergedByMembershipFacts(clusters: seq<Cluster>, ms: MergeStrategy, dist: (int, int) -> real,
                                                   orderOf: set<int> -> seq<int>)
    ensures var r := MergedByMembership(clusters, ms, dist, orderOf);
            Members(r) == Members(clusters) && Coarsens(clusters, r) && |r| <= |clusters| &&
            NoMergePartner(r, ms, dist, orderOf) &&
            (NoMergePartner(clusters, ms, dist, orderOf) ==> r == clusters)
    decreases |clusters|
  {
    var i := FirstWithPartner(clusters, ms, dist, orderOf, 0);
    FirstWithPartnerFacts(clusters, ms, dist, orderOf, 0);
    if i == -1 {
      NoPartnerAnywhere(clusters, ms, dist, orderOf);
      CoarsensRefl(clusters);
    } else {
      var j := PartnerScan(clusters, i, ms, dist, orderOf, |clusters|).index;
      PartnerScanFacts(clusters, i, ms, dist, orderOf, |clusters|);
      var next := MergeToBack(clusters, i, j);
      MergedByMembershipFacts(next, ms, dist, orderOf);
      MergeToBackMembers(clusters, i, j);
      MergeToBackCoarsens(clusters, i, j);
      CoarsensTrans(clusters, next, MergedByMembership(next, ms, dist, orderOf));
    }
  }

  /** The group a seed-map entry proposes: the key and all its neighbours. */
  function SeedGroup(seedMap: NeighborMap, key: int): Cluster
    requires key in seedMap
  {
    {key} + seedMap[key]
  }

  /** The seed groups kept by `filterSeeds`, in the map's iteration order
      `keys`: those whose membership reaches the cutoff. */
  function SeedGroups(seedMap: NeighborMap, keys: seq<int>, ms: MergeStrategy, dist: (int, int) -> real,
                      orderOf: set<int> -> seq<int>): seq<Cluster>
    requires forall k :: k in keys ==> k in seedMap
  {
    if |keys| == 0 then []
    else
      var kept := SeedGroups(seedMap, keys[..|keys| - 1], ms, dist, orderOf);
      var group := SeedGroup(seedMap, keys[|keys| - 1]);
      if Membership(orderOf(group), dist, ms.membershipCutoff) >= ms.membershipCutoff then kept + [group]
      else kept
  }

  /** The kept groups are exactly the groups, one per key, whose membership
      reaches the cutoff: every kept group is the group of some key, no key
      gives more than one, every key whose group passes gives it, and each
      group holds its key. */
  lemma {:induction false} SeedGroupsFacts(seedMap: NeighborMap, keys: seq<int>, ms: MergeStrategy,
                                           dist: (int, int) -> real, orderOf: set<int> -> seq<int>)
    requires forall k :: k in keys ==> k in seedMap
    ensures |SeedGroups(seedMap, keys, ms, dist, orderOf)| <= |keys|
    ensures forall g :: g in SeedGroups(seedMap, keys, ms, dist, orderOf) ==>
              exists k :: k in keys && g == SeedGroup(seedMap, k) && k in g &&
                Membership(orderOf(g), dist, ms.membershipCutoff) >= ms.membershipCutoff
    ensures forall k :: (k in keys &&
                         Membership(orderOf(SeedGroup(seedMap, k)), dist, ms.membershipCutoff) >= ms.membershipCutoff) ==>
              SeedGroup(seedMap, k) in SeedGroups(seedMap, keys, ms, dist, orderOf)
  {
    if |keys| > 0 {
      var init := keys[..|keys| - 1];
      var last := keys[|keys| - 1];
      assert forall k :: k in keys ==> k in init || k == last;
      SeedGroupsFacts(seedMap, init, ms, dist, orderOf);
      var kept := SeedGroups(seedMap, init, ms, dist, orderOf);
      forall g | g in SeedGroups(seedMap, keys, ms, dist, orderOf)
        ensures exists k :: k in keys && g == SeedGroup(seedMap, k) && k in g &&
                  Membership(orderOf(g), dist, ms.membershipCutoff) >= ms.membershipCutoff
      {
        if g in kept {
          var k :| k in init && g == SeedGroup(seedMap, k) && k in g &&
                   Membership(orderOf(g), dist, ms.membershipCutoff) >= ms.membershipCutoff;
          assert k in keys;
        } else {
          assert last in keys && g == SeedGroup(seedMap, last);
        }
      }
    }
  }

  class ClusterList {
    var clusters: seq<Cluster>

    constructor()
      ensures clusters == []
    {
      clusters := [];
    }

    /** Appends a cluster at the back. */
    method AddCluster(cluster: Cluster)
      modifies this
      ensures clusters == old(clusters) + [cluster]
      ensures Members(clusters) == Members(old(clusters)) + cluster
    {
      MembersAppend(clusters, cluster);
      clusters := clusters + [cluster];
    }

    /** Erases the cluster at position k. */
    method RemoveCluster(k: nat)
      requires k < |clusters|
      modifies this
      ensures clusters == RemoveAt(old(clusters), k)
      ensures Members(clusters) + old(clusters)[k] == Members(old(clusters))
    {
      MembersRemoveAt(clusters, k);
      clusters := clusters[..k] + clusters[k + 1..];
    }

    /** Lets the cluster at i absorb the one at j and erases the latter;
        merging a cluster with itself does nothing. */
    method MergeClusters(i: nat, j: nat)
      requires i < |clusters| && j < |clusters|
      modifies this
      ensures i == j ==> clusters == old(clusters)
      ensures i != j ==> clusters == MergeAt(old(clusters), i, j)
      ensures Members(clusters) == Members(old(clusters))
    {
      if i == j {
        return;
      }
      MergeAtMembers(clusters, i, j);
      clusters := clusters[i := clusters[i] + clusters[j]];
      clusters := clusters[..j] + clusters[j + 1..];
    }

    /** The older pipeline's seed filter: the group of every seed-map
        entry, visited in the map's iteration order `keyOrder`, is kept
        when its membership reaches the cutoff. */
    method FilterSeeds(ms: MergeStrategy, seedMap: NeighborMap, keyOrder: seq<int>,
                       distanceFunction: (int, int) -> real, orderOf: set<int> -> seq<int>)
      requires Distinct(keyOrder) && Elements(keyOrder) == seedMap.Keys
      requires IterationOrder(orderOf)
      modifies this
      ensures clusters == old(clusters) + SeedGroups(seedMap, keyOrder, ms, distanceFunction, orderOf)
    {
      var t := 0;
      while t < |keyOrder|
        invariant t <= |keyOrder|
        invariant clusters == old(clusters) + SeedGroups(seedMap, keyOrder[..t], ms, distanceFunction, orderOf)
      {
        var key := keyOrder[t];
        assert keyOrder[..t + 1][..t] == keyOrder[..t];
        var clusterGroup := {key} + seedMap[key];
        var membership := ms.CalculateMembership(clusterGroup, orderOf(clusterGroup), distanceFunction);
        if membership >= ms.membershipCutoff {
          clusters := clusters + [clusterGroup];
        }
        t := t + 1;
      }
      assert keyOrder[..t] == keyOrder;
    }

    /** Scans every other cluster as merge partner for the cluster at i. */
    method BestMergePartner(ms: MergeStrategy, distanceFunction: (int, int) -> real,
                            orderOf: set<int> -> seq<int>, i: nat)
      returns (bestMergePartnerIndex: int, bestMergeMembership: real)
      requires i < |clusters| && IterationOrder(orderOf)
      ensures Candidate(bestMergePartnerIndex, bestMergeMembership) ==
              PartnerScan(clusters, i, ms, distanceFunction, orderOf, |clusters|)
    {
      bestMergePartnerIndex, bestMergeMembership := -1, NoMembership;
      var j := 0;
      while j < |clusters|
        invariant j <= |clusters|
        invariant Candidate(bestMergePartnerIndex, bestMergeMembership) ==
                  PartnerScan(clusters, i, ms, distanceFunction, orderOf, j)
      {
        if j != i {
          var mergedCluster := clusters[i] + clusters[j];
          var mergeMembership := ms.CalculateMembership(mergedCluster, orderOf(mergedCluster), distanceFunction);
          if mergeMembership >= ms.membershipCutoff {
            if mergeMembership >= bestMergeMembership {
              bestMergePartnerIndex, bestMergeMembership := j, mergeMembership;
            }
          }
        }
        j := j + 1;
      }
    }

    /** One pass of the older pipeline's merge loop: the clusters are
        scanned front to back and the first one with a merge partner is
        reported together with that partner; none is found only when no
        pair of clusters can merge. */
    method FirstMergeablePair(ms: MergeStrategy, distanceFunction: (int, int) -> real,
                              orderOf: set<int> -> seq<int>)
      returns (found: bool, i: nat, j: nat)
      requires IterationOrder(orderOf)
      ensures found ==> i < |clusters| && j < |clusters| && i != j
      ensures found ==> j == PartnerScan(clusters, i, ms, distanceFunction, orderOf, |clusters|).index
      ensures found ==> MergeScore(clusters, i, j, ms, distanceFunction, orderOf) >= ms.membershipCutoff
      ensures found ==> forall a :: 0 <= a < i ==>
                PartnerScan(clusters, a, ms, distanceFunction, orderOf, |clusters|).index == -1
      ensures !found ==> NoMergePartner(clusters, ms, distanceFunction, orderOf)
      ensures found <==> FirstWithPartner(clusters, ms, distanceFunction, orderOf, 0) != -1
      ensures found ==> i == FirstWithPartner(clusters, ms, distanceFunction, orderOf, 0)
    {
      i, j := 0, 0;
      while i < |clusters|
        invariant i <= |clusters|
        invariant forall a :: 0 <= a < i ==>
                    PartnerScan(clusters, a, ms, distanceFunction, orderOf, |clusters|).index == -1
      {
        var bestMergePartnerIndex, bestMergeMembership := BestMergePartner(ms, distanceFunction, orderOf, i);
        PartnerScanFacts(clusters, i, ms, distanceFunction, orderOf, |clusters|);
        if bestMergePartnerIndex != -1 && bestMergeMembership >= ms.membershipCutoff {
          FirstWithPartnerFacts(clusters, ms, distanceFunction, orderOf, 0);
          return true, i, bestMergePartnerIndex;
        }
        i := i + 1;
      }
      NoPartnerAnywhere(clusters, ms, distanceFunction, orderOf);
      FirstWithPartnerFacts(clusters, ms, distanceFunction, orderOf, 0);
      return false, 0, 0;
    }

    /** The older pipeline's merge loop: replace the first mergeable pair
        by its union at the back of the list, and restart; stop after a
        pass finds none.  The list left is the one `MergedByMembership`
        describes: no term is lost, every cluster is a union of input
        clusters, no two clusters left could still merge, and a list
        already in that state is left as it is. */
    method MergeClustersByMembership(ms: MergeStrategy, distanceFunction: (int, int) -> real,
                                     orderOf: set<int> -> seq<int>)
      requires IterationOrder(orderOf)
      modifies this
      ensures clusters == MergedByMembership(old(clusters), ms, distanceFunction, orderOf)
      ensures Coarsens(old(clusters), clusters)
      ensures Members(clusters) == Members(old(clusters))
      ensures NoMergePartner(clusters, ms, distanceFunction, orderOf)
      ensures NoMergePartner(old(clusters), ms, distanceFunction, orderOf) ==> clusters == old(clusters)
      ensures |clusters| <= |old(clusters)|
    {
      var mergingPossible := true;
      while mergingPossible
        invariant MergedByMembership(clusters, ms, distanceFunction, orderOf) ==
                  MergedByMembership(old(clusters), ms, distanceFunction, orderOf)
        invariant !mergingPossible ==> clusters == MergedByMembership(old(clusters), ms, distanceFunction, orderOf)
        decreases |clusters|, mergingPossible
      {
        mergingPossible := false;
        var found, i, j := FirstMergeablePair(ms, distanceFunction, orderOf);
        if found {
          clusters := MergeToBack(clusters, i, j);
          mergingPossible := true;
        }
      }
      MergedByMembershipFacts(old(clusters), ms, distanceFunction, orderOf);
    }
  }

  /** When the scan of every cluster finds no partner, no pair can merge. */
  lemma NoPartnerAnywhere(clusters: seq<Cluster>, ms: MergeStrategy, dist: (int, int) -> real,
                          orderOf: set<int> -> seq<int>)
    requires forall a :: 0 <= a < |clusters| ==> PartnerScan(clusters, a, ms, dist, orderOf, |clusters|).index == -1
    ensures NoMergePartner(clusters, ms, dist, orderOf)
  {
    forall a, j | 0 <= a < |clusters| && 0 <= j < |clusters| && a != j
      ensures MergeScore(clusters, a, j, ms, dist, orderOf) < ms.membershipCutoff
    {
      PartnerScanFacts(clusters, a, ms, dist, orderOf, |clusters|);
    }
  }
}
