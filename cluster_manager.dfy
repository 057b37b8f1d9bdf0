/** The orchestrator of the older pipeline: it owns the term columns, the
    distance matrix, the seed map and the cluster list, fills the matrix and
    the seed map from the gene sets, and hands the seed map and the matrix
    to the cluster list for filtering and merging. */
module ClusterManagers {
  import opened Wrappers
  import opened StringUtils
  import opened Distances
  import opened NeighborMaps
  import opened DistanceMetrics
  import opened MergeStrategies
  import opened SeedMaps
  import opened ClusterLists
  import opened ScoreTables

  const SizeMismatchMessage: string := "All input columns must have the same size."

  class ClusterManager {
    const termNames: seq<string>
    const geneIDstrings: seq<string>
    const pvalues: seq<real>
    const nterms: nat
    const distanceMatrix: DistanceMatrix
    const seedMap: SeedMap
    const clusterList: ClusterList

    ghost predicate Valid()
      reads this, distanceMatrix
    {
      nterms == |termNames| == |geneIDstrings| == |pvalues| &&
      distanceMatrix.nterms == nterms && distanceMatrix.Valid()
    }

    /** The matrix as the cluster list reads it. */
    ghost function Distance(): (int, int) -> real
      requires Valid()
      reads this, distanceMatrix, distanceMatrix.distanceVector
    {
      Lookup(distanceMatrix.distanceVector[..], nterms)
    }

    /** Builds the members from columns of equal size. */
    constructor(termNames: seq<string>, geneIDstrings: seq<string>, pvalues: seq<real>)
      requires |termNames| == |geneIDstrings| == |pvalues|
      ensures Valid()
      ensures this.termNames == termNames && this.geneIDstrings == geneIDstrings && this.pvalues == pvalues
      ensures fresh(distanceMatrix) && fresh(distanceMatrix.distanceVector) && fresh(seedMap) && fresh(clusterList)
      ensures forall k :: 0 <= k < distanceMatrix.distanceVector.Length ==> distanceMatrix.distanceVector[k] == 0.0
      ensures seedMap.seedMap == map[] && clusterList.clusters == []
    {
      this.termNames := termNames;
      this.geneIDstrings := geneIDstrings;
      this.pvalues := pvalues;
      nterms := |termNames|;
      distanceMatrix := new DistanceMatrix(|termNames|, termNames);
      seedMap := new SeedMap(termNames, geneIDstrings, pvalues);
      clusterList := new ClusterList();
    }

    /** The constructor as the caller sees it: it throws when the three
        columns do not all have the same size. */
    static method New(termNameColumn: seq<string>, geneIDColumn: seq<string>, pvalueColumn: seq<real>)
      returns (r: Result<ClusterManager>)
      ensures r.Failure? <==> |termNameColumn| != |geneIDColumn| || |termNameColumn| != |pvalueColumn|
      ensures r.Failure? ==> r.error == InvalidArgument(SizeMismatchMessage)
      ensures r.Success? ==> fresh(r.value) && r.value.Valid() && r.value.nterms == |termNameColumn|
      ensures r.Success? ==> r.value.seedMap.seedMap == map[] && r.value.clusterList.clusters == []
    {
      if |termNameColumn| != |geneIDColumn| || |termNameColumn| != |pvalueColumn| {
        return Failure(InvalidArgument(SizeMismatchMessage));
      }
      var manager := new ClusterManager(termNameColumn, geneIDColumn, pvalueColumn);
      r := Success(manager);
    }

    /** Scores every ordered pair of terms: the diagonal gets the same-term
        distance, every other cell the metric's score, and a pair reaching
        the distance cutoff is added to the seed map.  An unknown metric
        throws at the first pair of distinct terms. */
    method CalculateDistanceScores(distanceMetric: DistanceMetric) returns (outcome: Outcome)
      requires Valid()
      modifies distanceMatrix.distanceVector, seedMap
      ensures outcome.Fail? <==> distanceMetric.distanceMetric != KappaName && nterms >= 2
      ensures outcome.Fail? ==> outcome.error == InvalidArgument(UnsupportedMetricMessage + distanceMetric.distanceMetric)
      ensures outcome.Pass? ==> forall a: nat, b: nat :: a < nterms && b < nterms ==>
                Cell(distanceMatrix.distanceVector[..], nterms, a, b) == Target(geneIDstrings, a, b)
      ensures outcome.Pass? ==> Distances.Symmetric(distanceMatrix.distanceVector[..], nterms)
      ensures outcome.Pass? ==> forall a, b :: Related(seedMap.seedMap, a, b) <==>
                Related(old(seedMap.seedMap), a, b) || Linked(geneIDstrings, distanceMetric.distanceCutoff, a, b)
      ensures outcome.Pass? && NeighborMaps.Symmetric(old(seedMap.seedMap)) ==> NeighborMaps.Symmetric(seedMap.seedMap)
    {
      var totalGeneCount := CountUniqueElements(geneIDstrings);
      ghost var startCells := distanceMatrix.distanceVector[..];
      ghost var startLinks := seedMap.seedMap;
      ghost var target := MakeTargets(geneIDstrings);
      outcome := ScoreRows(distanceMetric, totalGeneCount, startCells, startLinks, target);
      if outcome.Fail? {
        return;
      }
      ScoresDone(distanceMatrix.distanceVector[..], startCells, seedMap.seedMap, startLinks,
                 geneIDstrings, target, distanceMetric.distanceCutoff);
    }

    /** The rows of the scoring loop, first to last. */
    method ScoreRows(distanceMetric: DistanceMetric, totalGeneCount: nat,
                     ghost startCells: seq<real>, ghost startLinks: NeighborMap, ghost target: (int, int) -> real)
      returns (outcome: Outcome)
      requires Valid() && startCells == distanceMatrix.distanceVector[..] && startLinks == seedMap.seedMap
      requires totalGeneCount == |UniqueElements(geneIDstrings)|
      requires TargetsOf(target, geneIDstrings) && SymmetricTargets(target, nterms)
      modifies distanceMatrix.distanceVector, seedMap
      ensures outcome.Fail? <==> distanceMetric.distanceMetric != KappaName && nterms >= 2
      ensures outcome.Fail? ==> outcome.error == InvalidArgument(UnsupportedMetricMessage + distanceMetric.distanceMetric)
      ensures outcome.Pass? ==> Scoring(distanceMetric, totalGeneCount, nterms, 0, startCells, startLinks, target)
    {
      var i := 0;
      while i < nterms
        invariant i <= nterms
        invariant Scoring(distanceMetric, totalGeneCount, i, 0, startCells, startLinks, target)
        invariant distanceMetric.distanceMetric != KappaName ==> nterms < 2 || i == 0
      {
        outcome := ScoreRow(distanceMetric, totalGeneCount, i, startCells, startLinks, target);
        if outcome.Fail? {
          return;
        }
        i := i + 1;
      }
      return Pass;
    }

    /** The state of the scoring loop at row i, column j: the table and
        the seed map hold what the visited pairs put there. */
    ghost predicate Scoring(distanceMetric: DistanceMetric, totalGeneCount: nat, i: nat, j: nat,
                            startCells: seq<real>, startLinks: NeighborMap, target: (int, int) -> real)
      reads this, distanceMatrix, distanceMatrix.distanceVector, seedMap
    {
      Valid() && i <= nterms && j <= nterms && totalGeneCount == |UniqueElements(geneIDstrings)| &&
      TargetsOf(target, geneIDstrings) && SymmetricTargets(target, nterms) &&
      TableSoFar(distanceMatrix.distanceVector[..], startCells, nterms, target, i, j) &&
      seedMap.seedMap == LinksUpTo(startLinks, nterms, target, distanceMetric.distanceCutoff, i, j)
    }

    /** Row i of the scoring loop, from its first column to its last. */
    method ScoreRow(distanceMetric: DistanceMetric, totalGeneCount: nat, i: nat,
                    ghost startCells: seq<real>, ghost startLinks: NeighborMap, ghost target: (int, int) -> real)
      returns (outcome: Outcome)
      requires i < nterms && Scoring(distanceMetric, totalGeneCount, i, 0, startCells, startLinks, target)
      requires distanceMetric.distanceMetric != KappaName ==> nterms < 2 || i == 0
      modifies distanceMatrix.distanceVector, seedMap
      ensures outcome.Fail? <==> distanceMetric.distanceMetric != KappaName && nterms >= 2
      ensures outcome.Fail? ==> outcome.error == InvalidArgument(UnsupportedMetricMessage + distanceMetric.distanceMetric)
      ensures outcome.Pass? ==> Scoring(distanceMetric, totalGeneCount, i + 1, 0, startCells, startLinks, target)
    {
      var term1Genes := SplitStringToUnorderedSet(geneIDstrings[i], GeneDelimiter);
      var j := 0;
      while j < nterms
        invariant Scoring(distanceMetric, totalGeneCount, i, j, startCells, startLinks, target)
        invariant distanceMetric.distanceMetric != KappaName ==> nterms < 2 || (i == 0 && j <= 1)
      {
        outcome := ScorePair(distanceMetric, term1Genes, totalGeneCount, i, j, startCells, startLinks, target);
        if outcome.Fail? {
          return;
        }
        j := j + 1;
      }
      RowDone(distanceMetric, totalGeneCount, i, startCells, startLinks, target);
      return Pass;
    }

    /** Finishing row i is starting row i + 1. */
    lemma RowDone(distanceMetric: DistanceMetric, totalGeneCount: nat, i: nat,
                  startCells: seq<real>, startLinks: NeighborMap, target: (int, int) -> real)
      requires i < nterms && Scoring(distanceMetric, totalGeneCount, i, nterms, startCells, startLinks, target)
      ensures Scoring(distanceMetric, totalGeneCount, i + 1, 0, startCells, startLinks, target)
    {
      TableNextRow(distanceMatrix.distanceVector[..], startCells, nterms, target, i);
      LinksNextRow(startLinks, nterms, target, distanceMetric.distanceCutoff, i);
    }

    /** Cell (i, j) of the scoring loop: the diagonal gets the same-term
        distance; any other pair gets the metric's score, which links the
        pair when it reaches the cutoff. */
    method ScorePair(distanceMetric: DistanceMetric, term1Genes: set<string>, totalGeneCount: nat, i: nat, j: nat,
                     ghost startCells: seq<real>, ghost startLinks: NeighborMap, ghost target: (int, int) -> real)
      returns (outcome: Outcome)
      requires Scoring(distanceMetric, totalGeneCount, i, j, startCells, startLinks, target)
      requires i < nterms && j < nterms && term1Genes == GeneSet(geneIDstrings, i)
      modifies distanceMatrix.distanceVector, seedMap
      ensures outcome.Fail? <==> distanceMetric.distanceMetric != KappaName && i != j
      ensures outcome.Fail? ==> outcome.error == InvalidArgument(UnsupportedMetricMessage + distanceMetric.distanceMetric)
      ensures outcome.Pass? ==> Scoring(distanceMetric, totalGeneCount, i, j + 1, startCells, startLinks, target)
    {
      ghost var cells := distanceMatrix.distanceVector[..];
      LinksStep(startLinks, nterms, target, distanceMetric.distanceCutoff, i, j);
      if i == j {
        assert Target(geneIDstrings, i, j) == SameTermDistance;
        distanceMatrix.SetDistance(SameTermDistance, i, j);
        TableStep(cells, startCells, nterms, target, i, j);
        return Pass;
      }
      var term2Genes := SplitStringToUnorderedSet(geneIDstrings[j], GeneDelimiter);
      PairTarget(geneIDstrings, i, j, term1Genes, term2Genes, totalGeneCount);
      var score := distanceMetric.CalculateDistance(term1Genes, term2Genes, totalGeneCount as real);
      if score.Failure? {
        return Fail(score.error);
      }
      var distanceScore := score.value;
      distanceMatrix.SetDistance(distanceScore, i, j);
      TableStep(cells, startCells, nterms, target, i, j);
      if distanceScore >= distanceMetric.distanceCutoff {
        seedMap.AddTermPair(i, j);
      }
      return Pass;
    }

    /** Keeps the seed groups whose membership reaches the cutoff; the seed
        map's entries are visited in the order `keyOrder`. */
    method FilterSeeds(mergeStrategy: MergeStrategy, keyOrder: seq<int>, orderOf: set<int> -> seq<int>)
      requires Valid() && IterationOrder(orderOf)
      requires Distinct(keyOrder) && Elements(keyOrder) == seedMap.seedMap.Keys
      modifies clusterList
      ensures clusterList.clusters ==
              old(clusterList.clusters) + SeedGroups(seedMap.seedMap, keyOrder, mergeStrategy, Distance(), orderOf)
    {
      clusterList.FilterSeeds(mergeStrategy, seedMap.seedMap, keyOrder,
                              Lookup(distanceMatrix.distanceVector[..], nterms), orderOf);
    }

    /** Merges clusters until no two of them merge to a membership reaching
        the cutoff; every cluster left is a union of clusters it started
        with. */
    method MergeSeeds(mergeStrategy: MergeStrategy, orderOf: set<int> -> seq<int>)
      requires Valid() && IterationOrder(orderOf)
      modifies clusterList
      ensures clusterList.clusters == MergedByMembership(old(clusterList.clusters), mergeStrategy, Distance(), orderOf)
      ensures Coarsens(old(clusterList.clusters), clusterList.clusters)
      ensures Members(clusterList.clusters) == Members(old(clusterList.clusters))
      ensures NoMergePartner(clusterList.clusters, mergeStrategy, Distance(), orderOf)
      ensures NoMergePartner(old(clusterList.clusters), mergeStrategy, Distance(), orderOf) ==>
                clusterList.clusters == old(clusterList.clusters)
    {
      clusterList.MergeClustersByMembership(mergeStrategy, Lookup(distanceMatrix.distanceVector[..], nterms), orderOf);
    }
  }
}
