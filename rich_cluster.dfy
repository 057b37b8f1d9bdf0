/** The orchestrator of the newer pipeline.  It scores every pair of terms
    into the distance matrix and links the pairs reaching the distance
    cutoff in the adjacency list.  Each adjacency entry then grows a seed
    cluster by adding, one term at a time, the neighbour most strongly
    linked to the cluster.  Finally clusters are merged, pass after pass,
    with their best partner above the linkage threshold. */
module RichClusters {
  import opened Wrappers
  import opened StringUtils
  import opened Distances
  import opened NeighborMaps
  import opened DistanceMetrics
  import opened AdjacencyLists
  import opened LinkageMethods
  import opened ClusterLists
  import opened ScoreTables

  const SizeMismatchMessage: string := "All input columns must have the same size."

  /** The best candidate of a scan so far: a term (seed growth) or a list
      position (merge partners), -1 for none, and its linkage. */
  datatype Best = Best(item: int, link: real)

  /** No scan has found a candidate yet: -1 with linkage -1. */
  const NoCandidate: Best := Best(-1, -1.0)

  // Seed growth.

  /** The linkage of the cluster with each single term. */
  ghost function ToCluster(linkage: (set<int>, set<int>) -> real, cluster: set<int>): int -> real
  {
    n => linkage(cluster, {n})
  }

  /** The neighbour scan of one round of `filterSeed` over order[..upto]:
      neighbours already in the cluster are skipped, and a neighbour
      replaces the best so far when its linkage `link` to the cluster is
      strictly larger. */
  ghost function NeighborScan(link: int -> real, cluster: set<int>, order: seq<int>, upto: nat): Best
    requires upto <= |order|
  {
    if upto == 0 then NoCandidate
    else
      var b := NeighborScan(link, cluster, order, upto - 1);
      var n := order[upto - 1];
      if n in cluster then b
      else if link(n) > b.link then Best(n, link(n))
      else b
  }

  /** The scan yields no candidate, with linkage -1, or a neighbour outside
      the cluster with its linkage, which is above -1; no neighbour outside
      the cluster is linked more strongly. */
  lemma {:induction false} NeighborScanFacts(link: int -> real, cluster: set<int>, order: seq<int>, upto: nat)
    requires upto <= |order|
    ensures var b := NeighborScan(link, cluster, order, upto);
            b == NoCandidate ||
            (b.item in order && b.item !in cluster && b.link > -1.0 && b.link == link(b.item))
    ensures var b := NeighborScan(link, cluster, order, upto);
            forall k :: 0 <= k < upto && order[k] !in cluster ==> link(order[k]) <= b.link
  {
    if upto > 0 {
      NeighborScanFacts(link, cluster, order, upto - 1);
    }
  }

  /** Strict comparison keeps the first of equally linked neighbours: the
      best found stands at a position p of the order before which every
      outstanding neighbour is linked strictly less. */
  lemma {:induction false} NeighborScanFirst(link: int -> real, cluster: set<int>, order: seq<int>, upto: nat)
    returns (p: nat)
    requires upto <= |order|
    ensures var b := NeighborScan(link, cluster, order, upto);
            b != NoCandidate ==>
              p < upto && order[p] == b.item &&
              forall k :: 0 <= k < p && order[k] !in cluster ==> link(order[k]) < b.link
  {
    if upto == 0 {
      return 0;
    }
    p := NeighborScanFirst(link, cluster, order, upto - 1);
    NeighborScanFacts(link, cluster, order, upto - 1);
    var b := NeighborScan(link, cluster, order, upto - 1);
    var n := order[upto - 1];
    if n !in cluster && link(n) > b.link {
      p := upto - 1;
    }
  }

  /** One more neighbour of the scan, whose linkage is l. */
  lemma NeighborScanStep(link: int -> real, cluster: set<int>, order: seq<int>, t: nat, b: Best, l: real)
    requires t < |order| && b == NeighborScan(link, cluster, order, t)
    requires order[t] !in cluster ==> l == link(order[t])
    ensures NeighborScan(link, cluster, order, t + 1) ==
            if order[t] in cluster then b else if l > b.link then Best(order[t], l) else b
  {
  }

  /** Taking an outstanding neighbour into the cluster leaves fewer
      outstanding neighbours. */
  lemma FewerOutstanding(neighbors: set<int>, cluster: set<int>, x: int)
    requires x in neighbors && x !in cluster
    ensures |neighbors - (cluster + {x})| < |neighbors - cluster|
  {
    assert neighbors - (cluster + {x}) == (neighbors - cluster) - {x};
  }

  /** The rounds of `filterSeed` from `cluster` on: the best neighbour is
      added while its linkage reaches the threshold; the rounds stop at the
      first scan whose best linkage is below the threshold or that found no
      candidate. */
  ghost function Grow(linkage: (set<int>, set<int>) -> real, threshold: real, neighbors: set<int>,
                      order: seq<int>, cluster: set<int>): set<int>
    requires cluster != {} && Elements(order) == neighbors
    decreases |neighbors - cluster|
  {
    var b := NeighborScan(ToCluster(linkage, cluster), cluster, order, |order|);
    if b.link < threshold || b.item == -1 then cluster
    else
      NeighborScanFacts(ToCluster(linkage, cluster), cluster, order, |order|);
      FewerOutstanding(neighbors, cluster, b.item);
      Grow(linkage, threshold, neighbors, order, cluster + {b.item})
  }

  /** The cluster a seed (node, neighbours) grows into, the neighbours
      visited in the order `order`. */
  ghost function SeedCluster(linkage: (set<int>, set<int>) -> real, threshold: real, node: int,
                             neighbors: set<int>, order: seq<int>): set<int>
    requires Elements(order) == neighbors
  {
    Grow(linkage, threshold, neighbors, order, {node})
  }

  /** Every outstanding neighbour is linked to the cluster below the
      threshold or at most -1, the starting best linkage. */
  ghost predicate Stopped(link: int -> real, threshold: real, neighbors: set<int>, cluster: set<int>)
  {
    forall n :: n in neighbors && n !in cluster ==> link(n) < threshold || link(n) <= -1.0
  }

  /** A scan whose best is below the threshold or no candidate at all
      leaves no neighbour that could be added. */
  lemma ScanStopped(link: int -> real, threshold: real, neighbors: set<int>, order: seq<int>, cluster: set<int>)
    requires Elements(order) == neighbors && -1 !in neighbors
    requires var b := NeighborScan(link, cluster, order, |order|); b.link < threshold || b.item == -1
    ensures Stopped(link, threshold, neighbors, cluster)
  {
    var b := NeighborScan(link, cluster, order, |order|);
    NeighborScanFacts(link, cluster, order, |order|);
    forall n | n in neighbors && n !in cluster
      ensures link(n) < threshold || link(n) <= -1.0
    {
      var k :| 0 <= k < |order| && order[k] == n;
      assert link(order[k]) <= b.link;
    }
  }

  /** Growth only adds neighbours. */
  lemma {:induction false} GrowBounds(linkage: (set<int>, set<int>) -> real, threshold: real,
                                      neighbors: set<int>, order: seq<int>, cluster: set<int>)
    requires cluster != {} && Elements(order) == neighbors
    ensures cluster <= Grow(linkage, threshold, neighbors, order, cluster) <= cluster + neighbors
    decreases |neighbors - cluster|
  {
    var b := NeighborScan(ToCluster(linkage, cluster), cluster, order, |order|);
    if !(b.link < threshold || b.item == -1) {
      NeighborScanFacts(ToCluster(linkage, cluster), cluster, order, |order|);
      var next := cluster + {b.item};
      FewerOutstanding(neighbors, cluster, b.item);
      GrowBounds(linkage, threshold, neighbors, order, next);
      assert Grow(linkage, threshold, neighbors, order, cluster) == Grow(linkage, threshold, neighbors, order, next);
    }
  }

  /** Growth stops where no outstanding neighbour could be added (term -1,
      which no index is, would also stop it, being the scan's "none"). */
  lemma {:induction false} GrowStops(linkage: (set<int>, set<int>) -> real, threshold: real,
                                     neighbors: set<int>, order: seq<int>, cluster: set<int>)
    requires cluster != {} && Elements(order) == neighbors && -1 !in neighbors
    ensures var r := Grow(linkage, threshold, neighbors, order, cluster);
            r != {} && Stopped(ToCluster(linkage, r), threshold, neighbors, r)
    decreases |neighbors - cluster|
  {
    GrowBounds(linkage, threshold, neighbors, order, cluster);
    var link := ToCluster(linkage, cluster);
    var b := NeighborScan(link, cluster, order, |order|);
    if b.link < threshold || b.item == -1 {
      ScanStopped(link, threshold, neighbors, order, cluster);
      assert Grow(linkage, threshold, neighbors, order, cluster) == cluster;
    } else {
      NeighborScanFacts(link, cluster, order, |order|);
      var next := cluster + {b.item};
      FewerOutstanding(neighbors, cluster, b.item);
      GrowStops(linkage, threshold, neighbors, order, next);
      assert Grow(linkage, threshold, neighbors, order, cluster) == Grow(linkage, threshold, neighbors, order, next);
    }
  }

  /** The seed clusters of the adjacency entries visited in the order
      `keys`, each entry's neighbours in the order `orderOf` gives. */
  ghost function SeedClusters(linkage: (set<int>, set<int>) -> real, threshold: real, adj: NeighborMap,
                              keys: seq<int>, orderOf: set<int> -> seq<int>): seq<set<int>>
    requires Elements(keys) <= adj.Keys && IterationOrder(orderOf)
  {
    if keys == [] then []
    else
      var key := keys[|keys| - 1];
      assert key in Elements(keys);
      assert Elements(keys[..|keys| - 1]) <= Elements(keys);
      SeedClusters(linkage, threshold, adj, keys[..|keys| - 1], orderOf) +
        [SeedCluster(linkage, threshold, key, adj[key], orderOf(adj[key]))]
  }

  /** The seeds of the first t + 1 keys are those of the first t and the
      seed of key t. */
  lemma SeedClustersStep(linkage: (set<int>, set<int>) -> real, threshold: real, adj: NeighborMap,
                         keys: seq<int>, t: nat, orderOf: set<int> -> seq<int>)
    requires t < |keys| && Elements(keys) <= adj.Keys && IterationOrder(orderOf)
    ensures keys[t] in adj && Elements(keys[..t]) <= adj.Keys && Elements(keys[..t + 1]) <= adj.Keys
    ensures SeedClusters(linkage, threshold, adj, keys[..t + 1], orderOf) ==
            SeedClusters(linkage, threshold, adj, keys[..t], orderOf) +
              [SeedCluster(linkage, threshold, keys[t], adj[keys[t]], orderOf(adj[keys[t]]))]
  {
    assert keys[t] in Elements(keys);
    assert keys[..t + 1][..t] == keys[..t];
    assert Elements(keys[..t + 1]) <= Elements(keys);
  }

  /** Every cluster of the list holds at least one term. */
  ghost predicate AllNonEmpty(clusters: seq<Cluster>)
  {
    forall k :: 0 <= k < |clusters| ==> clusters[k] != {}
  }

  /** One seed cluster per entry, in visiting order: the k-th holds its
      key and no term outside the key and its neighbours. */
  lemma {:induction false} SeedClustersFacts(linkage: (set<int>, set<int>) -> real, threshold: real,
                                             adj: NeighborMap, keys: seq<int>, orderOf: set<int> -> seq<int>)
    requires Elements(keys) <= adj.Keys && IterationOrder(orderOf)
    ensures var r := SeedClusters(linkage, threshold, adj, keys, orderOf);
            |r| == |keys| && AllNonEmpty(r) &&
            forall k :: 0 <= k < |keys| ==> keys[k] in r[k] && r[k] <= {keys[k]} + adj[keys[k]]
  {
    if keys != [] {
      var init := keys[..|keys| - 1];
      var key := keys[|keys| - 1];
      assert Elements(init) <= Elements(keys);
      assert key in Elements(keys);
      SeedClustersFacts(linkage, threshold, adj, init, orderOf);
      var rest := SeedClusters(linkage, threshold, adj, init, orderOf);
      var last := SeedCluster(linkage, threshold, key, adj[key], orderOf(adj[key]));
      GrowBounds(linkage, threshold, adj[key], orderOf(adj[key]), {key});
      assert key in last && last <= {key} + adj[key];
      var r := SeedClusters(linkage, threshold, adj, keys, orderOf);
      assert r == rest + [last];
      forall k | 0 <= k < |keys|
        ensures keys[k] in r[k] && r[k] <= {keys[k]} + adj[keys[k]]
      {
        if k < |init| {
          assert keys[k] == init[k] && r[k] == rest[k];
        } else {
          assert keys[k] == key && r[k] == last;
        }
      }
    }
  }

  // Merge partners.

  /** The linkage of the cluster at position i with the one at each
      position j; -1 off the list. */
  ghost function PartnerLinks(linkage: (set<int>, set<int>) -> real, clusters: seq<Cluster>, i: nat): int -> real
    requires i < |clusters|
  {
    j => if 0 <= j < |clusters| then linkage(clusters[i], clusters[j]) else -1.0
  }

  /** Position j qualifies as partner of i when its linkage is above both
      the threshold and -1, the starting best linkage. */
  ghost predicate Qualifies(link: int -> real, threshold: real, i: int, j: int)
  {
    i != j && link(j) > -1.0 && link(j) > threshold
  }

  /** The scan of `findBestMergePartner` for position i over positions
      [0, upto): i itself is skipped, and a position replaces the best so
      far when its linkage is strictly larger and above the threshold. */
  ghost function MergePartnerScan(link: int -> real, threshold: real, i: int, upto: nat): Best
  {
    if upto == 0 then NoCandidate
    else
      var b := MergePartnerScan(link, threshold, i, upto - 1);
      var j := upto - 1;
      if j == i then b
      else if link(j) > b.link && link(j) > threshold then Best(j, link(j))
      else b
  }

  /** One more position of the scan, whose linkage is l. */
  lemma MergePartnerScanStep(link: int -> real, threshold: real, i: int, j: nat, b: Best, l: real)
    requires b == MergePartnerScan(link, threshold, i, j)
    requires j != i ==> l == link(j)
    ensures MergePartnerScan(link, threshold, i, j + 1) ==
            if j == i then b else if l > b.link && l > threshold then Best(j, l) else b
  {
  }

  /** The scan finds nothing exactly when no position qualifies; otherwise
      it finds the first qualifying position of largest linkage. */
  lemma {:induction false} MergePartnerScanFacts(link: int -> real, threshold: real, i: int, upto: nat)
    ensures var b := MergePartnerScan(link, threshold, i, upto);
            (b.item == -1 <==> forall j :: 0 <= j < upto ==> !Qualifies(link, threshold, i, j)) &&
            (b.item == -1 ==> b == NoCandidate)
    ensures var b := MergePartnerScan(link, threshold, i, upto);
            b.item != -1 ==>
              0 <= b.item < upto && Qualifies(link, threshold, i, b.item) && b.link == link(b.item) &&
              (forall j :: 0 <= j < upto && Qualifies(link, threshold, i, j) ==> link(j) <= b.link) &&
              (forall j :: 0 <= j < b.item && Qualifies(link, threshold, i, j) ==> link(j) < b.link)
  {
    if upto > 0 {
      MergePartnerScanFacts(link, threshold, i, upto - 1);
      if Qualifies(link, threshold, i, upto - 1) {
        assert MergePartnerScan(link, threshold, i, upto).item != -1;
      }
    }
  }

  /** The cluster at position i has no merge partner. */
  ghost predicate NoPartner(linkage: (set<int>, set<int>) -> real, threshold: real, clusters: seq<Cluster>, i: nat)
    requires i < |clusters|
  {
    forall j :: 0 <= j < |clusters| ==> !Qualifies(PartnerLinks(linkage, clusters, i), threshold, i, j)
  }

  /** No cluster of the list has a merge partner. */
  ghost predicate Settled(linkage: (set<int>, set<int>) -> real, threshold: real, clusters: seq<Cluster>)
  {
    forall i :: 0 <= i < |clusters| ==> NoPartner(linkage, threshold, clusters, i)
  }

  /** Merging keeps every cluster of the list non-empty. */
  lemma MergeAtNonEmpty(clusters: seq<Cluster>, i: nat, j: nat)
    requires i < |clusters| && j < |clusters| && i != j && AllNonEmpty(clusters)
    ensures AllNonEmpty(MergeAt(clusters, i, j))
  {
    MergeAtPlaces(clusters, i, j);
    var r := MergeAt(clusters, i, j);
    forall k | 0 <= k < |r|
      ensures r[k] != {}
    {
      if k != Shifted(i, j) {
        var k0 := if k < j then k else k + 1;
        assert k0 != i && k0 != j && Shifted(k0, j) == k;
      }
    }
  }

  /** The partner the scan of a pass finds for the cluster at position i:
      -1 (the list's end) for none. */
  ghost function PartnerOf(linkage: (set<int>, set<int>) -> real, threshold: real, clusters: seq<Cluster>, i: nat): int
    requires i < |clusters|
  {
    MergePartnerScan(PartnerLinks(linkage, clusters, i), threshold, i, |clusters|).item
  }

  /** The partner is -1 exactly when the cluster has none, and otherwise
      another position of the list. */
  lemma PartnerOfFacts(linkage: (set<int>, set<int>) -> real, threshold: real, clusters: seq<Cluster>, i: nat)
    requires i < |clusters|
    ensures var j := PartnerOf(linkage, threshold, clusters, i);
            (j == -1 <==> NoPartner(linkage, threshold, clusters, i)) &&
            (j != -1 ==> 0 <= j < |clusters| && j != i)
  {
    MergePartnerScanFacts(PartnerLinks(linkage, clusters, i), threshold, i, |clusters|);
  }

  /** A merge pass from position i on, after `merged` merges: the list it
      leaves and the number of merges.  The cluster at i absorbs its
      partner, which leaves the list; the next position to visit is i + 1,
      or i again when the partner stood before it. */
  ghost function PassFrom(linkage: (set<int>, set<int>) -> real, threshold: real, clusters: seq<Cluster>,
                          i: nat, merged: nat): (r: (seq<Cluster>, nat))
    ensures |r.0| + r.1 == |clusters| + merged
    ensures r.1 >= merged && (r.1 == merged ==> r.0 == clusters)
    decreases |clusters| - i
  {
    if i >= |clusters| then (clusters, merged)
    else
      var j := PartnerOf(linkage, threshold, clusters, i);
      PartnerOfFacts(linkage, threshold, clusters, i);
      if j == -1 then PassFrom(linkage, threshold, clusters, i + 1, merged)
      else PassFrom(linkage, threshold, MergeAt(clusters, i, j), if j < i then i else i + 1, merged + 1)
  }

  /** A pass loses no term, only unites clusters, and keeps them
      non-empty. */
  lemma {:induction false} PassFromUnites(linkage: (set<int>, set<int>) -> real, threshold: real,
                                          clusters: seq<Cluster>, i: nat, merged: nat)
    ensures var r := PassFrom(linkage, threshold, clusters, i, merged);
            Members(r.0) == Members(clusters) && Coarsens(clusters, r.0) &&
            (AllNonEmpty(clusters) ==> AllNonEmpty(r.0))
    decreases |clusters| - i
  {
    if i >= |clusters| {
      CoarsensRefl(clusters);
    } else {
      var j := PartnerOf(linkage, threshold, clusters, i);
      PartnerOfFacts(linkage, threshold, clusters, i);
      if j == -1 {
        PassFromUnites(linkage, threshold, clusters, i + 1, merged);
      } else {
        var next := MergeAt(clusters, i, j);
        var i' := if j < i then i else i + 1;
        PassFromUnites(linkage, threshold, next, i', merged + 1);
        MergeAtMembers(clusters, i, j);
        MergeAtCoarsens(clusters, i, j);
        CoarsensTrans(clusters, next, PassFrom(linkage, threshold, next, i', merged + 1).0);
        if AllNonEmpty(clusters) {
          MergeAtNonEmpty(clusters, i, j);
        }
      }
    }
  }

  /** No cluster from position i on has a merge partner. */
  ghost predicate NoPartnerFrom(linkage: (set<int>, set<int>) -> real, threshold: real, clusters: seq<Cluster>, i: nat)
  {
    forall a :: i <= a < |clusters| ==> NoPartner(linkage, threshold, clusters, a)
  }

  lemma NoPartnerFromStep(linkage: (set<int>, set<int>) -> real, threshold: real, clusters: seq<Cluster>, i: nat)
    requires i < |clusters|
    ensures NoPartnerFrom(linkage, threshold, clusters, i) <==>
            NoPartner(linkage, threshold, clusters, i) && NoPartnerFrom(linkage, threshold, clusters, i + 1)
  {
    if NoPartner(linkage, threshold, clusters, i) && NoPartnerFrom(linkage, threshold, clusters, i + 1) {
      forall a | i <= a < |clusters|
        ensures NoPartner(linkage, threshold, clusters, a)
      {
        if a != i {
          assert i + 1 <= a;
        }
      }
    }
  }

  /** A pass from i on merges nothing exactly when no cluster from i on
      has a partner. */
  lemma {:induction false} PassFromQuiet(linkage: (set<int>, set<int>) -> real, threshold: real,
                                         clusters: seq<Cluster>, i: nat, merged: nat)
    ensures PassFrom(linkage, threshold, clusters, i, merged).1 == merged <==>
            NoPartnerFrom(linkage, threshold, clusters, i)
    decreases |clusters| - i
  {
    if i < |clusters| {
      var j := PartnerOf(linkage, threshold, clusters, i);
      PartnerOfFacts(linkage, threshold, clusters, i);
      NoPartnerFromStep(linkage, threshold, clusters, i);
      if j == -1 {
        assert NoPartner(linkage, threshold, clusters, i);
        PassFromStep(linkage, threshold, clusters, clusters, i, merged, j);
        PassFromQuiet(linkage, threshold, clusters, i + 1, merged);
      } else {
        assert !NoPartner(linkage, threshold, clusters, i);
        PassFromStep(linkage, threshold, clusters, MergeAt(clusters, i, j), i, merged, j);
      }
    }
  }

  /** The visit of position i in a pass: with no partner the pass goes on
      at i + 1; otherwise it goes on over the merged list. */
  lemma PassFromStep(linkage: (set<int>, set<int>) -> real, threshold: real, before: seq<Cluster>,
                     after: seq<Cluster>, i: nat, merged: nat, j: int)
    requires i < |before| && j == PartnerOf(linkage, threshold, before, i)
    requires j == -1 ==> after == before
    requires j != -1 ==> 0 <= j < |before| && j != i && after == MergeAt(before, i, j)
    ensures j == -1 ==> PassFrom(linkage, threshold, before, i, merged) == PassFrom(linkage, threshold, after, i + 1, merged)
    ensures j != -1 ==> PassFrom(linkage, threshold, before, i, merged) ==
                        PassFrom(linkage, threshold, after, if j < i then i else i + 1, merged + 1)
  {
  }

  /** A whole pass leaving `after` with `merged` merges: it merges nothing
      exactly when the list was settled, and then leaves it as it is; it
      loses no term and only unites clusters. */
  lemma PassFacts(linkage: (set<int>, set<int>) -> real, threshold: real, clusters: seq<Cluster>,
                  after: seq<Cluster>, merged: nat)
    requires (after, merged) == PassFrom(linkage, threshold, clusters, 0, 0)
    ensures Members(after) == Members(clusters) && Coarsens(clusters, after)
    ensures AllNonEmpty(clusters) ==> AllNonEmpty(after)
    ensures |after| + merged == |clusters|
    ensures merged == 0 <==> Settled(linkage, threshold, clusters)
    ensures merged == 0 ==> after == clusters
  {
    PassFromUnites(linkage, threshold, clusters, 0, 0);
    PassFromQuiet(linkage, threshold, clusters, 0, 0);
  }

  /** What the loop of `mergeClusters` leaves: passes run until one
      merges nothing. */
  ghost function MergedClusters(linkage: (set<int>, set<int>) -> real, threshold: real, clusters: seq<Cluster>): seq<Cluster>
    decreases |clusters|
  {
    var pass := PassFrom(linkage, threshold, clusters, 0, 0);
    if pass.1 == 0 then pass.0 else MergedClusters(linkage, threshold, pass.0)
  }

  /** The loop loses no term and only unites clusters, leaves no cluster
      with a partner, and leaves a settled list as it is. */
  lemma {:induction false} MergedClustersFacts(linkage: (set<int>, set<int>) -> real, threshold: real,
                                               clusters: seq<Cluster>)
    ensures var r := MergedClusters(linkage, threshold, clusters);
            Members(r) == Members(clusters) && Coarsens(clusters, r) && |r| <= |clusters| &&
            (AllNonEmpty(clusters) ==> AllNonEmpty(r)) &&
            Settled(linkage, threshold, r) &&
            (Settled(linkage, threshold, clusters) ==> r == clusters)
    decreases |clusters|
  {
    var pass := PassFrom(linkage, threshold, clusters, 0, 0);
    PassFacts(linkage, threshold, clusters, pass.0, pass.1);
    if pass.1 != 0 {
      MergedClustersFacts(linkage, threshold, pass.0);
      CoarsensTrans(clusters, pass.0, MergedClusters(linkage, threshold, pass.0));
    }
  }

  class RichCluster {
    const termNames: seq<string>
    const geneIDstrings: seq<string>
    const nterms: nat
    const distanceMatrix: DistanceMatrix
    const adjList: AdjacencyList
    const clusterList: ClusterList
    const dm: DistanceMetric
    const lm: LinkageMethod

    /** The columns agree in size, the matrix has one cell per ordered
        pair of terms, no cluster of the list is empty, and the linkage
        method's linkage function is the one its name and distance function
        define. */
    ghost predicate Valid()
      reads this, distanceMatrix, clusterList, lm
    {
      nterms == |termNames| == |geneIDstrings| &&
      distanceMatrix.nterms == nterms && distanceMatrix.Valid() &&
      AllNonEmpty(clusterList.clusters) && lm.Valid()
    }

    /** The linkage method's linkage function and threshold. */
    ghost function Linkage(): (set<int>, set<int>) -> real
      reads this, lm
    {
      lm.linkage
    }

    ghost function Threshold(): real
      reads this, lm
    {
      lm.linkageThreshold
    }

    /** Builds the members from columns of equal size; the linkage method
        is copied, as the source takes it by value. */
    constructor(termNames: seq<string>, geneIDstrings: seq<string>, dm: DistanceMetric, lm: LinkageMethod)
      requires |termNames| == |geneIDstrings|
      ensures Valid()
      ensures this.termNames == termNames && this.geneIDstrings == geneIDstrings && this.dm == dm
      ensures fresh(distanceMatrix) && fresh(distanceMatrix.distanceVector) && fresh(adjList)
      ensures fresh(clusterList) && fresh(this.lm)
      ensures forall k :: 0 <= k < distanceMatrix.distanceVector.Length ==> distanceMatrix.distanceVector[k] == 0.0
      ensures adjList.adjList == map[] && clusterList.clusters == []
      ensures this.lm.linkageMethod == lm.linkageMethod && this.lm.linkageThreshold == lm.linkageThreshold
      ensures this.lm.distanceFunction == lm.distanceFunction && this.lm.loaded == lm.loaded
    {
      this.termNames := termNames;
      this.geneIDstrings := geneIDstrings;
      nterms := |termNames|;
      distanceMatrix := new DistanceMatrix(|termNames|, termNames);
      adjList := new AdjacencyList(|termNames|);
      clusterList := new ClusterList();
      this.dm := dm;
      this.lm := new LinkageMethod.Copy(lm);
    }

    /** The constructor as the caller sees it: it throws when the term and
        gene columns differ in size. */
    static method New(termNameColumn: seq<string>, geneIDColumn: seq<string>, dm: DistanceMetric, lm: LinkageMethod)
      returns (r: Result<RichCluster>)
      ensures r.Failure? <==> |termNameColumn| != |geneIDColumn|
      ensures r.Failure? ==> r.error == InvalidArgument(SizeMismatchMessage)
      ensures r.Success? ==> fresh(r.value) && r.value.Valid() && r.value.nterms == |termNameColumn|
      ensures r.Success? ==> r.value.adjList.adjList == map[] && r.value.clusterList.clusters == []
    {
      if |termNameColumn| != |geneIDColumn| {
        return Failure(InvalidArgument(SizeMismatchMessage));
      }
      var rc := new RichCluster(termNameColumn, geneIDColumn, dm, lm);
      r := Success(rc);
    }

    // Phase 1: pairwise distances.

    /** Scores every ordered pair of terms: the diagonal gets the same-term
        distance, every other cell the metric's score, and a pair reaching
        the distance cutoff becomes neighbours both ways in the adjacency
        list; then the linkage method is loaded with the matrix as its
        distance function.  An unknown metric throws at the first pair of
        distinct terms, before the linkage method is loaded. */
    method ComputeDistances() returns (outcome: Outcome)
      requires Valid()
      modifies distanceMatrix.distanceVector, adjList, lm
      ensures Valid()
      ensures outcome.Fail? <==> dm.distanceMetric != KappaName && nterms >= 2
      ensures outcome.Fail? ==> outcome.error == InvalidArgument(UnsupportedMetricMessage + dm.distanceMetric)
      ensures outcome.Fail? ==> lm.loaded == old(lm.loaded) && lm.distanceFunction == old(lm.distanceFunction)
      ensures outcome.Pass? ==> forall a: nat, b: nat :: a < nterms && b < nterms ==>
                Cell(distanceMatrix.distanceVector[..], nterms, a, b) == Target(geneIDstrings, a, b)
      ensures outcome.Pass? ==> Distances.Symmetric(distanceMatrix.distanceVector[..], nterms)
      ensures outcome.Pass? ==> forall a, b :: Related(adjList.adjList, a, b) <==>
                Related(old(adjList.adjList), a, b) || Linked(geneIDstrings, dm.distanceCutoff, a, b)
      ensures outcome.Pass? && NeighborMaps.Symmetric(old(adjList.adjList)) ==> NeighborMaps.Symmetric(adjList.adjList)
      ensures outcome.Pass? ==> lm.loaded && lm.distanceFunction == Lookup(distanceMatrix.distanceVector[..], nterms)
    {
      var totalGeneCount := CountUniqueElements(geneIDstrings);
      ghost var startCells := distanceMatrix.distanceVector[..];
      ghost var startLinks := adjList.adjList;
      ghost var target := MakeTargets(geneIDstrings);
      outcome := ScoreRows(totalGeneCount, startCells, startLinks, target);
      if outcome.Fail? {
        return;
      }
      ScoresDone(distanceMatrix.distanceVector[..], startCells, adjList.adjList, startLinks,
                 geneIDstrings, target, dm.distanceCutoff);
      lm.LoadDistanceFunction(Lookup(distanceMatrix.distanceVector[..], nterms));
    }

    /** The rows of the scoring loop, first to last. */
    method ScoreRows(totalGeneCount: nat, ghost startCells: seq<real>, ghost startLinks: NeighborMap,
                     ghost target: (int, int) -> real)
      returns (outcome: Outcome)
      requires Valid() && startCells == distanceMatrix.distanceVector[..] && startLinks == adjList.adjList
      requires totalGeneCount == |UniqueElements(geneIDstrings)|
      requires TargetsOf(target, geneIDstrings) && SymmetricTargets(target, nterms)
      modifies distanceMatrix.distanceVector, adjList
      ensures Valid()
      ensures outcome.Fail? <==> dm.distanceMetric != KappaName && nterms >= 2
      ensures outcome.Fail? ==> outcome.error == InvalidArgument(UnsupportedMetricMessage + dm.distanceMetric)
      ensures outcome.Pass? ==> Scoring(totalGeneCount, nterms, 0, startCells, startLinks, target)
    {
      var i := 0;
      while i < nterms
        invariant i <= nterms && Valid()
        invariant Scoring(totalGeneCount, i, 0, startCells, startLinks, target)
        invariant dm.distanceMetric != KappaName ==> nterms < 2 || i == 0
      {
        outcome := ScoreRow(totalGeneCount, i, startCells, startLinks, target);
        if outcome.Fail? {
          return;
        }
        i := i + 1;
      }
      return Pass;
    }

    /** The state of the scoring loop at row i, column j: the table and
        the adjacency list hold what the visited pairs put there. */
    ghost predicate Scoring(totalGeneCount: nat, i: nat, j: nat,
                            startCells: seq<real>, startLinks: NeighborMap, target: (int, int) -> real)
      reads this, distanceMatrix, distanceMatrix.distanceVector, adjList, clusterList, lm
    {
      Valid() && i <= nterms && j <= nterms && totalGeneCount == |UniqueElements(geneIDstrings)| &&
      TargetsOf(target, geneIDstrings) && SymmetricTargets(target, nterms) &&
      TableSoFar(distanceMatrix.distanceVector[..], startCells, nterms, target, i, j) &&
      adjList.adjList == LinksUpTo(startLinks, nterms, target, dm.distanceCutoff, i, j)
    }

    /** Row i of the scoring loop, from its first column to its last. */
    method ScoreRow(totalGeneCount: nat, i: nat,
                    ghost startCells: seq<real>, ghost startLinks: NeighborMap, ghost target: (int, int) -> real)
      returns (outcome: Outcome)
      requires i < nterms && Scoring(totalGeneCount, i, 0, startCells, startLinks, target)
      requires dm.distanceMetric != KappaName ==> nterms < 2 || i == 0
      modifies distanceMatrix.distanceVector, adjList
      ensures Valid()
      ensures outcome.Fail? <==> dm.distanceMetric != KappaName && nterms >= 2
      ensures outcome.Fail? ==> outcome.error == InvalidArgument(UnsupportedMetricMessage + dm.distanceMetric)
      ensures outcome.Pass? ==> Scoring(totalGeneCount, i + 1, 0, startCells, startLinks, target)
    {
      var term1Genes := SplitStringToUnorderedSet(geneIDstrings[i], GeneDelimiter);
      var j := 0;
      while j < nterms
        invariant Scoring(totalGeneCount, i, j, startCells, startLinks, target)
        invariant dm.distanceMetric != KappaName ==> nterms < 2 || (i == 0 && j <= 1)
      {
        outcome := ScorePair(term1Genes, totalGeneCount, i, j, startCells, startLinks, target);
        if outcome.Fail? {
          return;
        }
        j := j + 1;
      }
      RowDone(totalGeneCount, i, startCells, startLinks, target);
      return Pass;
    }

    /** Finishing row i is starting row i + 1. */
    lemma RowDone(totalGeneCount: nat, i: nat,
                  startCells: seq<real>, startLinks: NeighborMap, target: (int, int) -> real)
      requires i < nterms && Scoring(totalGeneCount, i, nterms, startCells, startLinks, target)
      ensures Scoring(totalGeneCount, i + 1, 0, startCells, startLinks, target)
    {
      TableNextRow(distanceMatrix.distanceVector[..], startCells, nterms, target, i);
      LinksNextRow(startLinks, nterms, target, dm.distanceCutoff, i);
    }

    /** Cell (i, j) of the scoring loop: the diagonal gets the same-term
        distance; any other pair gets the metric's score, and a score
        reaching the cutoff makes each term a neighbour of the other. */
    method ScorePair(term1Genes: set<string>, totalGeneCount: nat, i: nat, j: nat,
                     ghost startCells: seq<real>, ghost startLinks: NeighborMap, ghost target: (int, int) -> real)
      returns (outcome: Outcome)
      requires Scoring(totalGeneCount, i, j, startCells, startLinks, target)
      requires i < nterms && j < nterms && term1Genes == GeneSet(geneIDstrings, i)
      modifies distanceMatrix.distanceVector, adjList
      ensures Valid()
      ensures outcome.Fail? <==> dm.distanceMetric != KappaName && i != j
      ensures outcome.Fail? ==> outcome.error == InvalidArgument(UnsupportedMetricMessage + dm.distanceMetric)
      ensures outcome.Pass? ==> Scoring(totalGeneCount, i, j + 1, startCells, startLinks, target)
    {
      ghost var cells := distanceMatrix.distanceVector[..];
      LinksStep(startLinks, nterms, target, dm.distanceCutoff, i, j);
      if i == j {
        assert Target(geneIDstrings, i, j) == SameTermDistance;
        distanceMatrix.SetDistance(SameTermDistance, i, j);
        TableStep(cells, startCells, nterms, target, i, j);
        return Pass;
      }
      var term2Genes := SplitStringToUnorderedSet(geneIDstrings[j], GeneDelimiter);
      PairTarget(geneIDstrings, i, j, term1Genes, term2Genes, totalGeneCount);
      var score := dm.CalculateDistance(term1Genes, term2Genes, totalGeneCount as real);
      if score.Failure? {
        return Fail(score.error);
      }
      var distanceScore := score.value;
      distanceMatrix.SetDistance(distanceScore, i, j);
      TableStep(cells, startCells, nterms, target, i, j);
      if distanceScore >= dm.distanceCutoff {
        adjList.AddNeighbor(i, j);
        adjList.AddNeighbor(j, i);
      }
      return Pass;
    }

    // Phase 2: seed filtering.

    /** One scan of `filterSeed` over the neighbours in the order `order`. */
    method BestNeighbor(cluster: set<int>, order: seq<int>) returns (bestN: int, bestLink: real)
      requires lm.loaded && lm.Valid() && cluster != {}
      ensures Best(bestN, bestLink) == NeighborScan(ToCluster(Linkage(), cluster), cluster, order, |order|)
    {
      ghost var link := ToCluster(Linkage(), cluster);
      bestN, bestLink := -1, -1.0;
      var t := 0;
      while t < |order|
        invariant t <= |order|
        invariant Best(bestN, bestLink) == NeighborScan(link, cluster, order, t)
      {
        var n := order[t];
        if n !in cluster {
          var l := LinkToCluster(cluster, n);
          NeighborScanStep(link, cluster, order, t, Best(bestN, bestLink), l);
          if l > bestLink {
            bestLink := l;
            bestN := n;
          }
        } else {
          NeighborScanStep(link, cluster, order, t, Best(bestN, bestLink), 0.0);
        }
        t := t + 1;
      }
    }

    /** The linkage of the cluster with the single term n. */
    method LinkToCluster(cluster: set<int>, n: int) returns (l: real)
      requires lm.loaded && lm.Valid() && cluster != {}
      ensures l == ToCluster(Linkage(), cluster)(n)
    {
      l := lm.CalculateLinkage(cluster, {n});
    }

    /** Grows the seed (node, neighbours) into a cluster, the neighbours
        visited in the order `order`: the cluster starts as the node alone
        and only ever takes neighbours. */
    method FilterSeed(node: int, neighbors: set<int>, order: seq<int>) returns (cluster: set<int>)
      requires lm.loaded && lm.Valid() && Elements(order) == neighbors
      ensures cluster == SeedCluster(Linkage(), Threshold(), node, neighbors, order)
      ensures node in cluster && cluster <= {node} + neighbors
      ensures -1 !in neighbors ==> Stopped(ToCluster(Linkage(), cluster), Threshold(), neighbors, cluster)
    {
      GrowBounds(Linkage(), Threshold(), neighbors, order, {node});
      if -1 !in neighbors {
        GrowStops(Linkage(), Threshold(), neighbors, order, {node});
      }
      cluster := {node};
      while true
        invariant cluster != {}
        invariant Grow(Linkage(), Threshold(), neighbors, order, cluster) ==
                  SeedCluster(Linkage(), Threshold(), node, neighbors, order)
        decreases |neighbors - cluster|
      {
        var bestN, bestLink := BestNeighbor(cluster, order);
        if bestLink < lm.linkageThreshold || bestN == -1 {
          break;
        }
        NeighborScanFacts(ToCluster(Linkage(), cluster), cluster, order, |order|);
        FewerOutstanding(neighbors, cluster, bestN);
        cluster := cluster + {bestN};
      }
    }

    /** Appends the seed cluster of every adjacency entry, the entries
        visited in the order `keyOrder` and each entry's neighbours in the
        order `orderOf` gives. */
    method FilterSeeds(keyOrder: seq<int>, orderOf: set<int> -> seq<int>)
      requires Valid() && lm.loaded && IterationOrder(orderOf)
      requires Distinct(keyOrder) && Elements(keyOrder) == adjList.adjList.Keys
      modifies clusterList
      ensures Valid()
      ensures clusterList.clusters ==
              old(clusterList.clusters) + SeedClusters(Linkage(), Threshold(), adjList.adjList, keyOrder, orderOf)
    {
      var t := 0;
      while t < |keyOrder|
        invariant t <= |keyOrder| && Valid()
        invariant clusterList.clusters ==
                  old(clusterList.clusters) + SeedClusters(Linkage(), Threshold(), adjList.adjList, keyOrder[..t], orderOf)
      {
        var node := keyOrder[t];
        SeedClustersStep(Linkage(), Threshold(), adjList.adjList, keyOrder, t, orderOf);
        var neighbors := adjList.adjList[node];
        var cluster := FilterSeed(node, neighbors, orderOf(neighbors));
        clusterList.AddCluster(cluster);
        t := t + 1;
      }
      assert keyOrder[..t] == keyOrder;
    }

    // Phase 3: merging.

    /** The linkage of the clusters at positions i and j. */
    method LinkOfPair(clusters: seq<Cluster>, i: nat, j: nat) returns (l: real)
      requires lm.loaded && lm.Valid() && i < |clusters| && j < |clusters| && (lm.linkageMethod == AverageName ==> AllNonEmpty(clusters))
      ensures l == PartnerLinks(Linkage(), clusters, i)(j)
    {
      l := lm.CalculateLinkage(clusters[i], clusters[j]);
    }

    /** The scan of `findBestMergePartner` for the cluster at position i
        of `clusters`: the position of its partner, -1 (the list's end) for
        none. */
    method FindBestMergePartner(i: nat, clusters: seq<Cluster>) returns (bestIt: int)
      requires lm.loaded && lm.Valid() && i < |clusters| && (lm.linkageMethod == AverageName ==> AllNonEmpty(clusters))
      ensures bestIt == MergePartnerScan(PartnerLinks(Linkage(), clusters, i), Threshold(), i, |clusters|).item
    {
      ghost var link := PartnerLinks(Linkage(), clusters, i);
      var bestLink := -1.0;
      bestIt := -1;
      var j := 0;
      while j < |clusters|
        invariant j <= |clusters|
        invariant Best(bestIt, bestLink) == MergePartnerScan(link, Threshold(), i, j)
      {
        if j != i {
          var l := LinkOfPair(clusters, i, j);
          MergePartnerScanStep(link, Threshold(), i, j, Best(bestIt, bestLink), l);
          if l > bestLink && l > lm.linkageThreshold {
            bestLink := l;
            bestIt := j;
          }
        } else {
          MergePartnerScanStep(link, Threshold(), i, j, Best(bestIt, bestLink), 0.0);
        }
        j := j + 1;
      }
      assert Best(bestIt, bestLink) == MergePartnerScan(link, Threshold(), i, |clusters|);
    }

    /** One pass of the loop of `mergeClusters`: every cluster, front to
        back, absorbs its best partner, which leaves the list.  When the
        partner stood before the cluster, the cluster moves up one place and
        the next one to visit is at the same position.  The pass does what
        `PassFrom` describes: it merges nothing exactly when the list was
        settled, loses no term, and only unites clusters. */
    method MergePass() returns (nMerged: nat)
      requires Valid() && lm.loaded
      modifies clusterList
      ensures Valid()
      ensures (clusterList.clusters, nMerged) == PassFrom(Linkage(), Threshold(), old(clusterList.clusters), 0, 0)
      ensures Coarsens(old(clusterList.clusters), clusterList.clusters)
      ensures Members(clusterList.clusters) == Members(old(clusterList.clusters))
      ensures |clusterList.clusters| + nMerged == |old(clusterList.clusters)|
      ensures nMerged == 0 ==> clusterList.clusters == old(clusterList.clusters)
      ensures nMerged == 0 <==> Settled(Linkage(), Threshold(), old(clusterList.clusters))
    {
      nMerged := VisitAll();
      PassFacts(Linkage(), Threshold(), old(clusterList.clusters), clusterList.clusters, nMerged);
    }

    /** The loop of a pass: every position is visited once, in list order,
        the list shrinking under it as it goes. */
    method VisitAll() returns (nMerged: nat)
      requires Valid() && lm.loaded
      modifies clusterList
      ensures Valid()
      ensures (clusterList.clusters, nMerged) == PassFrom(Linkage(), Threshold(), old(clusterList.clusters), 0, 0)
    {
      nMerged := 0;
      var i := 0;
      ghost var start := clusterList.clusters;
      ghost var linkage, threshold := Linkage(), Threshold();
      while i < |clusterList.clusters|
        invariant Valid() && linkage == Linkage() && threshold == Threshold()
        invariant PassFrom(linkage, threshold, clusterList.clusters, i, nMerged) == PassFrom(linkage, threshold, start, 0, 0)
        decreases |clusterList.clusters| - i
      {
        ghost var before := clusterList.clusters;
        var j := AbsorbBestPartner(i);
        PassFromStep(linkage, threshold, before, clusterList.clusters, i, nMerged, j);
        if j == -1 {
          i := i + 1;
        } else {
          nMerged := nMerged + 1;
          i := if j < i then i else i + 1;
        }
      }
      assert PassFrom(linkage, threshold, clusterList.clusters, i, nMerged) == (clusterList.clusters, nMerged);
    }

    /** The visit of the cluster at position i in a pass: it absorbs its
        best partner at position j, which leaves the list; j is -1 exactly
        when it has no partner, and then nothing changes. */
    method AbsorbBestPartner(i: nat) returns (j: int)
      requires Valid() && lm.loaded && i < |clusterList.clusters|
      modifies clusterList
      ensures Valid()
      ensures Members(clusterList.clusters) == Members(old(clusterList.clusters))
      ensures j == PartnerOf(Linkage(), Threshold(), old(clusterList.clusters), i)
      ensures j == -1 <==> NoPartner(Linkage(), Threshold(), old(clusterList.clusters), i)
      ensures j == -1 ==> clusterList.clusters == old(clusterList.clusters)
      ensures j != -1 ==> 0 <= j < |old(clusterList.clusters)| && j != i &&
                          clusterList.clusters == MergeAt(old(clusterList.clusters), i, j)
    {
      j := FindBestMergePartner(i, clusterList.clusters);
      MergePartnerScanFacts(PartnerLinks(Linkage(), clusterList.clusters, i), Threshold(), i,
                            |clusterList.clusters|);
      if j != -1 {
        MergeAtNonEmpty(clusterList.clusters, i, j);
        clusterList.MergeClusters(i, j);
      }
    }

    /** The loop of `mergeClusters`: passes run until one merges nothing.
        The list left is the one `MergedClusters` describes: no term is
        lost, every cluster is a union of input clusters, no cluster is
        left with a partner, and a settled list is left as it is. */
    method MergeClusters()
      requires Valid() && lm.loaded
      modifies clusterList
      ensures Valid()
      ensures clusterList.clusters == MergedClusters(Linkage(), Threshold(), old(clusterList.clusters))
      ensures Coarsens(old(clusterList.clusters), clusterList.clusters)
      ensures Members(clusterList.clusters) == Members(old(clusterList.clusters))
      ensures Settled(Linkage(), Threshold(), clusterList.clusters)
      ensures |clusterList.clusters| <= |old(clusterList.clusters)|
      ensures Settled(Linkage(), Threshold(), old(clusterList.clusters)) ==>
                clusterList.clusters == old(clusterList.clusters)
    {
      ghost var start := clusterList.clusters;
      ghost var linkage, threshold := Linkage(), Threshold();
      while true
        invariant Valid() && linkage == Linkage() && threshold == Threshold()
        invariant MergedClusters(linkage, threshold, clusterList.clusters) == MergedClusters(linkage, threshold, start)
        decreases |clusterList.clusters|
      {
        var nMerged := MergePass();
        if nMerged == 0 {
          break;
        }
      }
      MergedClustersFacts(linkage, threshold, start);
    }
  }
}
