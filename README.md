# RichCluster clustering engine in Dafny

RichCluster clusters enrichment terms by the similarity of their gene sets.
Each term has a name and a comma-separated list of gene identifiers. Two
terms are scored by Cohen's kappa, the agreement of their gene sets over the
universe of all genes in the column. Pairs scoring at least a distance cutoff
become neighbours. Clusters are then seeded from the neighbours and merged.

The repository holds two pipelines over the same building blocks. This
project models both.

- **Older pipeline.** `ClusterManager` fills the distance matrix and records
  the close pairs in a `SeedMap`. `ClusterList::filterSeeds` keeps the
  group of each seed-map key (the key plus its neighbours) when the
  group's membership score reaches the membership cutoff.
  `ClusterList::mergeClusters` then repeatedly takes the first cluster that
  has a partner whose union has the best membership. The two clusters are
  replaced by their union at the back of the list, until no pair can merge.
  The membership score (`MergeStrategy`) counts the close pairs of a group
  and divides by the number of pairs with *integer* division, so it is
  always 0 or 1. The model keeps that division and proves the 0-or-1 fact.
- **Newer pipeline.** `RichCluster` fills the distance matrix. It links the
  close pairs in an `AdjacencyList` and loads the matrix lookup into its
  `LinkageMethod`. Each adjacency entry (node, neighbours) grows a seed
  cluster: each round adds the outstanding neighbour with the strictly
  largest linkage to the cluster, and growth stops when that linkage is
  below the linkage threshold or there is no candidate. A merge loop then
  runs passes over the list. Each cluster absorbs its best partner, the
  one with the strictly largest linkage above the threshold; the partner
  leaves the list. The loop stops after a pass that merges nothing. The
  linkages are single (least distance, default 100), complete (greatest,
  default 0) and average; "david" computes single linkage.

Files, one module each:

- `wrappers.dfy`: Option/Result/Outcome, and `Enumerate`, which is the
  unspecified iteration order of an unordered set.
- `string_utils.dfy`: splitting, joining and distinct-gene counting.
- `distance_matrix.dfy`: the flattened n×n table over an `array<real>`.
- `neighbor_maps.dfy`: the map-of-sets insert shared by `AdjacencyList` and
  `SeedMap`.
- `adjacency_list.dfy` and `seed_map.dfy`: the two neighbour maps.
- `distance_metric.dfy`: kappa and metric dispatch.
- `score_table.dfy`: what the all-pairs scoring loop computes.
- `merge_strategy.dfy`: the membership score.
- `linkage_method.dfy`: the three linkages, their order independence and
  symmetry, and single ≤ average ≤ complete.
- `cluster_list.dfy`: the list of clusters, both `ClusterList` headers.
- `cluster_manager.dfy` and `rich_cluster.dfy`: the two orchestrators.

The iteration order of an unordered map or set decides tie-breaks in the
source. The model takes these orders as inputs wherever they decide the
result: the order of the map keys, and `orderOf(s)` for the order of a set
`s`. Linkage and membership values are proved not to depend on the order,
so there the order is enumerated internally. A `std::list` iterator is
modelled by a position in a sequence, and the list's end by -1.

Both pipelines score pairs with the corrected kappa (`GetKappa`), which
counts the true intersection of the two gene sets. The source counts what
`std::set_intersection` finds over two unsorted iteration orders; that
as-written kappa is modelled beside it (`GetKappaAsWritten`), and the two
are proved equal when the orders are sorted. Findings shows where they
differ.

The merge loops of both pipelines are proved equal to specification
functions (`MergedByMembership`, `MergedClusters`). Their results are
coarsenings of the input (`Coarsens`): every cluster left is the union of
a group of input clusters, and every input cluster belongs to exactly one
group.

## Model

| member | source | states |
|---|---|---|
| StringUtils.Find | src/StringUtils.cpp:12 | a position found is at or after the start and the delimiter occurs there |
| StringUtils.Split | src/StringUtils.cpp:9-18 | the tokens between successive delimiter occurrences, searched left to right from the start, ending with the rest after the last one |
| StringUtils.Join | src/StringUtils.cpp:60-71 | the elements in order with the delimiter between neighbours, "" for none |
| StringUtils.UniqueElements | src/StringUtils.cpp:94-107 | the set of comma-separated identifiers over all rows |
| StringUtils.FindFirst | src/StringUtils.cpp:12 | the delimiter occurs nowhere between the start and the position found, or anywhere after the start when nothing is found |
| StringUtils.SplitFrom | src/StringUtils.cpp:12-16 | splitting from any start yields at least one token |
| StringUtils.SplitStringToVector | src/StringUtils.cpp:9-18 | the loop returns exactly the tokens of `Split` |
| StringUtils.SplitStringToUnorderedSet | src/StringUtils.cpp:21-30 | the loop returns exactly the set of the tokens of `Split` |
| StringUtils.VectorToString | src/StringUtils.cpp:60-71 | the loop returns the elements joined by the delimiter, "" for none |
| StringUtils.CountUniqueElements | src/StringUtils.cpp:94-107 | the count is the number of distinct identifiers over all rows |
| StringUtils.SplitJoinRoundTrip | src/StringUtils.cpp:9-18 | joining the tokens of a split with the same delimiter gives back the input |
| StringUtils.JoinSplitFrom | src/StringUtils.cpp:12-16 | joining the tokens from any start gives back the rest of the input |
| StringUtils.SplitNonEmpty | src/StringUtils.cpp:16 | a split always has a last token; the empty string splits into one empty token |
| StringUtils.NoTokenContainsDelimiter | src/StringUtils.cpp:12-15 | no token contains the delimiter |
| StringUtils.NoTokenContainsDelimiterFrom | src/StringUtils.cpp:12-16 | no token of a split from any start contains the delimiter |
| StringUtils.SplitCountsDelimiters | src/StringUtils.cpp:12-16 | a split has one token more than the input has non-overlapping delimiter occurrences |
| StringUtils.SplitFromCount | src/StringUtils.cpp:12-16 | from any start, the token count is one more than the occurrences counted from there |
| StringUtils.SplitTokenCount | src/StringUtils.cpp:9-18 | the input length is the token lengths plus one delimiter per gap |
| StringUtils.JoinLength | src/StringUtils.cpp:60-71 | a join's length is the element lengths plus one delimiter per gap |
| StringUtils.JoinSnoc | src/StringUtils.cpp:66-68 | appending an element appends the delimiter and the element |
| StringUtils.JoinCons | src/StringUtils.cpp:63-68 | a join is the first element, the delimiter and the join of the rest |
| StringUtils.SplitFromLast | src/StringUtils.cpp:16 | with no delimiter left, the rest of the input is the last token |
| StringUtils.SplitFromNext | src/StringUtils.cpp:12-14 | a delimiter found ends a token, and splitting resumes after it |
| StringUtils.UniqueElementsPrefix | src/StringUtils.cpp:98-104 | each row adds the set of its identifiers to those of the rows before |
| StringUtils.FindChar | src/StringUtils.cpp:12 | a one-character delimiter is found at its first occurrence |
| StringUtils.FindNoChar | src/StringUtils.cpp:12 | a one-character delimiter absent from the rest is not found |
| StringUtils.CountUniqueExample | src/StringUtils.cpp:92-93 | the documented example ["hi,how,are,you", "hi,hi,today"] has 5 distinct elements |
| StringUtils.SplitExampleA | src/StringUtils.cpp:92 | "hi,how,are,you" splits into its four words |
| StringUtils.SplitExampleB | src/StringUtils.cpp:92 | "hi,hi,today" splits into three tokens with "hi" twice |
| Distances.IndexInRange | src/DistanceMatrix.cpp:10-18 | every index of two in-range terms lies within the n·n cells |
| Distances.IndexInjective | src/DistanceMatrix.cpp:15-19 | distinct term pairs have distinct indices |
| Distances.Index | src/DistanceMatrix.cpp:15-19 | the flattened position of cell (i, j): i whole rows of n, then j |
| Distances.IndexProduct | src/DistanceMatrix.cpp:18 | the position is row·n + column |
| Distances.TableSize | src/DistanceMatrix.cpp:10 | the position just past the last row is n·n, the table size |
| Distances.IndexOffset | src/DistanceMatrix.cpp:18 | a cell lies its column past the start of its row |
| Distances.RowsAfter | src/DistanceMatrix.cpp:18 | a later row starts a full row or more after an earlier one |
| Distances.SetCells | src/DistanceMatrix.cpp:30-37 | writing a pair keeps the table's size |
| Distances.SetCellsReadsBack | src/DistanceMatrix.cpp:30-37 | after a write both orders of the pair read the distance written |
| Distances.SetCellsOtherCells | src/DistanceMatrix.cpp:30-37 | a write leaves every other pair's cell as it was |
| Distances.SetCellsFrame | src/DistanceMatrix.cpp:30-37 | a write changes only the two mirrored positions |
| Distances.SetCellsDiagonal | src/DistanceMatrix.cpp:30-37 | writing a term with itself changes the one diagonal cell |
| Distances.SetCellsSymmetric | src/DistanceMatrix.cpp:34-36 | a symmetric table stays symmetric after any write |
| Distances.ZeroTableSymmetric | src/DistanceMatrix.cpp:10 | the zero-initialised table is symmetric |
| Distances.LookupSymmetric | src/RichCluster.h:26-30 | the lookup of a symmetric table is a symmetric distance function |
| Distances.DistanceMatrix.constructor | src/DistanceMatrix.cpp:8-11 | a fresh table of n·n cells, all 0, symmetric |
| Distances.DistanceMatrix.GetDistanceIndex | src/DistanceMatrix.cpp:15-19 | row·n + column, inside the table, and no other pair has that index |
| Distances.DistanceMatrix.GetDistance | src/DistanceMatrix.cpp:23-26 | the cell of the pair |
| Distances.DistanceMatrix.SetDistance | src/DistanceMatrix.cpp:30-37 | both orders of the pair hold the distance, nothing else changes, symmetry is kept |
| NeighborMaps.Insert | src/AdjacencyList.cpp:5-12 | the keys gain the node |
| NeighborMaps.InsertRelated | src/AdjacencyList.cpp:5-12 | the relation after an insert is the old one plus exactly the new pair |
| NeighborMaps.InsertAbsentKey | src/AdjacencyList.cpp:9-10 | an absent key gets the set holding only the neighbour |
| NeighborMaps.InsertPresentKey | src/AdjacencyList.cpp:7-8 | a present key's set gains the neighbour |
| NeighborMaps.InsertOtherKeys | src/AdjacencyList.cpp:5-12 | every other key and its set are unchanged |
| NeighborMaps.InsertIdempotent | src/AdjacencyList.cpp:5-12 | inserting twice is inserting once; inserting a present pair changes nothing |
| NeighborMaps.InsertNoEmptySets | src/AdjacencyList.cpp:5-12 | inserts never create an empty neighbour set |
| NeighborMaps.InsertBothSymmetric | src/SeedMap.cpp:19-23 | inserting a pair both ways keeps a symmetric relation symmetric |
| NeighborMaps.InsertBothOtherKeys | src/SeedMap.cpp:19-23 | inserting both ways leaves the other keys unchanged |
| NeighborMaps.InsertBothRelated | src/SeedMap.cpp:19-23 | inserting both ways adds exactly the two orders of the pair |
| AdjacencyLists.AdjacencyList.constructor | src/AdjacencyList.h:10 | an empty map with the term count kept |
| AdjacencyLists.AdjacencyList.AddNeighbor | src/AdjacencyList.cpp:5-12 | the map becomes the insert of the pair; the pair is now present; other keys are unchanged |
| AdjacencyLists.AdjacencyList.HasNeighbor | src/AdjacencyList.cpp:15-24 | true exactly when the node's set holds the neighbour; false for an absent node |
| SeedMaps.SeedMap.constructor | src/SeedMap.cpp:4-17 | an empty map over the given columns, with the term count being the number of names |
| SeedMaps.SeedMap.New | src/SeedMap.cpp:13-16 | fails with the null-pointer message exactly when a column is missing |
| SeedMaps.SeedMap.AddTermPair | src/SeedMap.cpp:19-23 | both orders become present; the relation gains exactly them; symmetry is kept; other keys are unchanged |
| SeedMaps.SeedMap.AddSingleTermPair | src/SeedMap.cpp:27-34 | a new key gets the singleton, a present key's set gains the value, a present pair changes nothing |
| SeedMaps.SeedMap.Term2ExistsInTerm1Set | src/SeedMap.cpp:37-45 | true exactly when term1's set holds term2; false for an absent term1 |
| DistanceMetrics.Tabulate | src/DistanceMetric.cpp:29-32 | the four cells of the agreement table add up to the universe and the margins are the set sizes |
| DistanceMetrics.KappaOfCounts | src/DistanceMetric.cpp:25-42 | kappa from the common count, the two set sizes and the universe size; 0 when nothing is common |
| DistanceMetrics.GetKappa | src/DistanceMetric.cpp:17-44 | the corrected kappa: it counts the true intersection of the gene sets, where the source counts what `std::set_intersection` finds over unsorted orders (see Findings) |
| DistanceMetrics.KappaSymmetric | src/DistanceMetric.cpp:29-42 | kappa of the counts is symmetric in the two set sizes |
| DistanceMetrics.KappaClosedForm | src/DistanceMetric.cpp:34-42 | kappa equals 2(ad − bc) over the proportion polynomial, and the divide-by-zero guard fires exactly when that denominator is 0 |
| DistanceMetrics.KappaBounds | src/DistanceMetric.cpp:25-42 | for any consistent counts, kappa lies in [−1, 1] |
| DistanceMetrics.GetKappaDisjoint | src/DistanceMetric.cpp:25-27 | terms without common genes score 0 |
| DistanceMetrics.GetKappaSymmetric | src/DistanceMetric.cpp:17-44 | kappa does not depend on the order of the two terms |
| DistanceMetrics.GetKappaBounds | src/DistanceMetric.cpp:17-44 | for gene sets inside the universe, kappa lies in [−1, 1] and the division is defined |
| DistanceMetrics.DistanceMetric.CalculateDistance | src/DistanceMetric.cpp:3-9 | succeeds exactly for "kappa", with the kappa score; otherwise fails with the unsupported-metric message |
| DistanceMetrics.CalculateDistanceSymmetric | src/DistanceMetric.cpp:3-9 | the dispatched score is symmetric |
| DistanceMetrics.SetIntersectionSound | src/DistanceMetric.cpp:21 | everything it outputs is in both sets |
| DistanceMetrics.SetIntersectionBounds | src/DistanceMetric.cpp:21-23 | it never counts more than the true intersection, which is no larger than either set |
| DistanceMetrics.SetIntersection | src/DistanceMetric.cpp:21 | the merge walk of `std::set_intersection` over two orders: equal heads are output, otherwise the smaller head is dropped |
| DistanceMetrics.StrLessIrreflexive | src/DistanceMetric.cpp:21 | no gene sorts before itself |
| DistanceMetrics.StrLessTransitive | src/DistanceMetric.cpp:21 | the string order used by the walk is transitive |
| DistanceMetrics.SetIntersectionSorted | src/DistanceMetric.cpp:21 | over two sorted duplicate-free orders the walk outputs exactly the common genes |
| DistanceMetrics.GetKappaAsWrittenSorted | src/DistanceMetric.cpp:17-44 | when both iteration orders happen to be sorted the as-written kappa equals the corrected one |
| DistanceMetrics.GetKappaAsWritten | src/DistanceMetric.cpp:17-44 | kappa with the common count from `std::set_intersection` over the iteration orders; 0 for disjoint sets |
| DistanceMetrics.SetIntersectionUndercounts | src/DistanceMetric.cpp:21 | over the orders ["b","a"] and ["a","b"] it finds one common gene of two |
| DistanceMetrics.GetKappaAsWrittenDiffers | src/DistanceMetric.cpp:17-44 | for identical gene sets {a, b} in a universe of 4, the as-written kappa is 0 where the true kappa is 1 |
| DistanceMetrics.KappaOneOfTwo | src/DistanceMetric.cpp:29-42 | one gene common to two 2-gene sets in a universe of 4 gives kappa 0 |
| DistanceMetrics.KappaTwoOfTwo | src/DistanceMetric.cpp:29-42 | two identical 2-gene sets in a universe of 4 give kappa 1 |
| DistanceMetrics.GetKappaAsWrittenOutOfRange | src/DistanceMetric.cpp:17-44 | gene sets {a, b, c} and {a, b} iterated as [b, a, c] and [a, b] in a universe of 3 score −2 as written, outside [−1, 1], where the corrected kappa is 0 |
| DistanceMetrics.KappaOneOfThreeTwo | src/DistanceMetric.cpp:29-42 | one common gene of a 3-gene and a 2-gene set in a universe of 3 gives kappa −2 |
| DistanceMetrics.KappaTwoOfThreeTwo | src/DistanceMetric.cpp:29-42 | two common genes of a 3-gene and a 2-gene set in a universe of 3 give kappa 0 |
| ScoreTables.GeneSetInUniverse | src/ClusterManager.cpp:31-36 | each term's genes are among the counted genes |
| ScoreTables.GenePairScorable | src/ClusterManager.cpp:31-47 | every pair of terms meets kappa's precondition: disjoint, or a non-empty universe |
| ScoreTables.TargetSymmetric | src/ClusterManager.cpp:41-48 | the value written for (a, b) equals the one for (b, a) |
| ScoreTables.ScoreBounds | src/ClusterManager.cpp:46-47 | every score of two terms lies in [−1, 1] |
| ScoreTables.TargetsSymmetric | src/ClusterManager.cpp:41-48 | the target function is symmetric over all pairs |
| ScoreTables.MakeTargets | src/ClusterManager.cpp:41-48 | a symmetric function giving every pair its target value |
| ScoreTables.PairTarget | src/ClusterManager.cpp:36-47 | the metric's score of the two split gene sets is the target of the pair |
| ScoreTables.TableStep | src/ClusterManager.cpp:41-48 | one scored pair extends the loop's table invariant by one column |
| ScoreTables.TableNextRow | src/ClusterManager.cpp:34-39 | finishing a row starts the next one |
| ScoreTables.LinkedSymmetric | src/ClusterManager.cpp:50-51 | the close-pair relation is symmetric |
| ScoreTables.LinksStep | src/ClusterManager.cpp:50-51 | one more column links the pair both ways exactly when the terms differ and their score reaches the cutoff |
| ScoreTables.LinksNextRow | src/ClusterManager.cpp:34-39 | finishing a row of links starts the next one |
| ScoreTables.LinksUpToRelated | src/ClusterManager.cpp:34-52 | after any prefix of the loop, two terms are linked exactly when they were at the start or are a visited, distinct pair scoring at least the cutoff |
| ScoreTables.LinksColumnRelated | src/ClusterManager.cpp:50-51 | one column keeps the characterisation of the links |
| ScoreTables.ScoresDone | src/ClusterManager.cpp:34-63 | after the loop every cell holds the target (−99 on the diagonal), the table is symmetric, and the links are exactly the old ones plus the close pairs |
| MergeStrategies.PairsBeforeClosed | src/MergeStrategy.cpp:11-20 | i rows visit i(2n − i − 1)/2 pairs |
| MergeStrategies.Membership | src/MergeStrategy.cpp:5-32 | the close pairs of the order divided by its pairs with integer division, 0 for fewer than two members |
| MergeStrategies.TotalPairs | src/MergeStrategy.cpp:11-26 | a group of n visits n(n − 1)/2 pairs, none exactly when n < 2 |
| MergeStrategies.RowCloseBounds | src/MergeStrategy.cpp:13-23 | a row counts at most its pairs as close, all of them exactly when every pair is close |
| MergeStrategies.CloseBeforeBounds | src/MergeStrategy.cpp:11-25 | the close count is at most the pair count, equal exactly when every pair so far is close |
| MergeStrategies.MembershipZeroOrOne | src/MergeStrategy.cpp:26-31 | with integer division the score is 0 or 1; 1 exactly when there is a pair and all pairs are close; 0 below two members |
| MergeStrategies.MembershipOfGroup | src/MergeStrategy.cpp:5-32 | with a symmetric distance the score depends only on the group, not on its iteration order |
| MergeStrategies.MergeStrategy.CalculateMembership | src/MergeStrategy.cpp:5-32 | the double loop returns the score of the group in its order, 0 or 1, and the order-free score when the distance is symmetric |
| LinkageMethods.PrefixMinBelow | src/LinkageMethod.cpp:43-45 | the running minimum is at most the start and every value seen |
| LinkageMethods.PrefixMinWitness | src/LinkageMethod.cpp:43-45 | the running minimum is the start or one of the values seen |
| LinkageMethods.PrefixMaxAbove | src/LinkageMethod.cpp:67-69 | the running maximum is at least the start and every value seen |
| LinkageMethods.PrefixMaxWitness | src/LinkageMethod.cpp:67-69 | the running maximum is the start or one of the values seen |
| LinkageMethods.PairMinBelow | src/LinkageMethod.cpp:31-48 | the nested-loop minimum is at most 100 and every distance visited |
| LinkageMethods.PairMinWitness | src/LinkageMethod.cpp:31-48 | the nested-loop minimum is 100 or a visited distance |
| LinkageMethods.PairMaxAbove | src/LinkageMethod.cpp:55-72 | the nested-loop maximum is at least 0 and every distance visited |
| LinkageMethods.PairMaxWitness | src/LinkageMethod.cpp:55-72 | the nested-loop maximum is 0 or a visited distance |
| LinkageMethods.PairMinIsLeast | src/LinkageMethod.cpp:31-48 | whatever the iteration orders, `single` is the least of 100 and all distances over the two clusters |
| LinkageMethods.PairMaxIsGreatest | src/LinkageMethod.cpp:55-72 | whatever the iteration orders, `complete` is the greatest of 0 and all distances over the two clusters |
| LinkageMethods.LeastLinkUnique | src/LinkageMethod.cpp:31-48 | the least link is unique, so `single` does not depend on the orders |
| LinkageMethods.GreatestLinkUnique | src/LinkageMethod.cpp:55-72 | the greatest link is unique, so `complete` does not depend on the orders |
| LinkageMethods.SingleLinkage | src/LinkageMethod.cpp:27-49 | the least link with default 100, and 100 for an empty cluster |
| LinkageMethods.CompleteLinkage | src/LinkageMethod.cpp:51-73 | the greatest link with default 0, and 0 for an empty cluster |
| LinkageMethods.PrefixSumIsSetSum | src/LinkageMethod.cpp:81-95 | a running total over a duplicate-free order is the sum over its set |
| LinkageMethods.SetSum | src/LinkageMethod.cpp:81-95 | the sum of a function over a finite set, whatever order its elements are taken in |
| LinkageMethods.PrefixPairSum | src/LinkageMethod.cpp:79-95 | whatever the iteration orders, `average`'s total is the sum of all distances over the two clusters |
| LinkageMethods.PairCount | src/LinkageMethod.cpp:80-93 | `average` counts \|c1\|·\|c2\| pairs |
| LinkageMethods.SetSumBounds | src/LinkageMethod.cpp:79-95 | a sum of n values in [lo, hi] lies in [n·lo, n·hi] |
| LinkageMethods.LinkageOrder | src/LinkageMethod.cpp:27-97 | for non-empty clusters, single ≤ average ≤ complete |
| LinkageMethods.SingleSymmetric | src/LinkageMethod.cpp:27-49 | with a symmetric distance, single linkage is symmetric in the clusters |
| LinkageMethods.CompleteSymmetric | src/LinkageMethod.cpp:51-73 | with a symmetric distance, complete linkage is symmetric in the clusters |
| LinkageMethods.SumByColumns | src/LinkageMethod.cpp:79-95 | summing by rows and by columns gives the same total |
| LinkageMethods.AverageSymmetric | src/LinkageMethod.cpp:75-97 | with a symmetric distance, average linkage is symmetric in the clusters |
| LinkageMethods.LinkageValueSymmetric | src/LinkageMethod.cpp:5-24 | every method's linkage is symmetric under a symmetric distance |
| LinkageMethods.LinkageValue | src/LinkageMethod.cpp:5-24 | the linkage the method name selects: single for "david" and "single", complete, average, and 0 for any other name |
| LinkageMethods.MakeLinkage | src/LinkageMethod.cpp:5-24 | a function value giving the named method's linkage for every cluster pair |
| LinkageMethods.LinkageMethod.constructor | src/LinkageMethod.h:13-14 | name and threshold as given, no distance function loaded |
| LinkageMethods.LinkageMethod.Copy | src/RichCluster.cpp:22 | the copy has the same name, threshold and distance function |
| LinkageMethods.LinkageMethod.LoadDistanceFunction | src/LinkageMethod.h:21 | the distance function is the one given and is now loaded |
| LinkageMethods.LinkageMethod.CalculateLinkage | src/LinkageMethod.cpp:5-24 | "david" and "single" give single linkage, "complete" complete, "average" average, any other name 0 |
| LinkageMethods.LinkageMethod.Single | src/LinkageMethod.cpp:27-49 | the nested loop returns single linkage |
| LinkageMethods.LinkageMethod.Complete | src/LinkageMethod.cpp:51-73 | the nested loop returns complete linkage |
| LinkageMethods.LinkageMethod.Average | src/LinkageMethod.cpp:75-97 | the nested loop returns the total over the pair count, which is average linkage |
| ClusterLists.RemoveAt | src/ClusterList.h:18 | one cluster fewer; those before k stay, those after move up one |
| ClusterLists.MembersRemoveAt | src/ClusterList.h:18 | the terms left, plus those of the removed cluster, are all the terms |
| ClusterLists.MembersAppend | src/ClusterList.h:17 | appending a cluster adds exactly its terms |
| ClusterLists.MergeAt | src/ClusterList.h:19-23 | merging two distinct positions leaves one cluster fewer |
| ClusterLists.MergeAtPlaces | src/ClusterList.h:19-23 | the cluster at i becomes the union, in its shifted place; all others keep their relative order |
| ClusterLists.MergeAtMembers | src/ClusterList.h:19-23 | merging loses and adds no term |
| ClusterLists.MergeToBack | src/ClusterList.cpp:71-81 | one cluster fewer, with the union last |
| ClusterLists.MergeToBackMembers | src/ClusterList.cpp:71-81 | moving the union to the back loses and adds no term |
| ClusterLists.GroupUnion | src/ClusterList.h:19-23 | the union of the input clusters an ownership map sends to one output position |
| ClusterLists.Coarsens | src/ClusterList.h:19-23 | every output cluster is the union of a non-empty group of input clusters, and every input cluster is in exactly one group |
| ClusterLists.GroupOfOne | src/ClusterList.h:18-23 | a group of one position is that cluster |
| ClusterLists.GroupOfTwo | src/ClusterList.h:19-23 | a group of two positions is the union of their clusters |
| ClusterLists.CoarsensRefl | src/ClusterList.h:19-23 | a list coarsens itself, each cluster its own group |
| ClusterLists.CoarsensTrans | src/ClusterList.cpp:25-95 | a coarsening of a coarsening is a coarsening, so a sequence of merges is one |
| ClusterLists.MergeAtCoarsens | src/ClusterList.h:19-23 | merging j into i is a coarsening: i and j form one group, every other cluster its own |
| ClusterLists.MergeAtGroup | src/ClusterList.h:19-23 | each position after a merge is the union of its group |
| ClusterLists.MergeToBackCoarsens | src/ClusterList.cpp:71-81 | moving the union to the back is a coarsening: the two merged positions form the last group |
| ClusterLists.MergeToBackGroup | src/ClusterList.cpp:71-81 | each position after a merge to the back is the union of its group |
| ClusterLists.MergeToBackSource | src/ClusterList.cpp:76-79 | a position short of the back holds the cluster of exactly one untouched input position |
| ClusterLists.MergeScore | src/ClusterList.cpp:49-55 | the membership of the union of clusters i and j, in the union's iteration order |
| ClusterLists.PartnerScan | src/ClusterList.cpp:37-67 | the scan of cluster i over the other clusters: the last one seen whose merged membership reaches the cutoff and is at least the best so far, -1 for none |
| ClusterLists.PartnerScanFacts | src/ClusterList.cpp:37-67 | no partner exactly when no merged membership reaches the cutoff; otherwise one that reaches it, with the best membership and no later one as good |
| ClusterLists.SeedGroupsFacts | src/ClusterList.cpp:9-22 | the kept groups are exactly the key-plus-neighbours groups reaching the cutoff, one per key at most, each holding its key |
| ClusterLists.SeedGroups | src/ClusterList.cpp:9-22 | the key-plus-neighbours group of each seed-map key in key order, kept when its membership reaches the cutoff |
| ClusterLists.NoMergePartner | src/ClusterList.cpp:91-93 | no two distinct clusters of the list have a merged membership reaching the cutoff |
| ClusterLists.FirstWithPartner | src/ClusterList.cpp:33-89 | the first position from a whose partner scan finds a partner, -1 for none |
| ClusterLists.FirstWithPartnerFacts | src/ClusterList.cpp:33-89 | -1 exactly when no cluster from a on has a partner; otherwise a cluster with a partner, with none before it from a |
| ClusterLists.MergedByMembership | src/ClusterList.cpp:25-95 | the list the older merge loop leaves: the first cluster with a partner is merged with it to the back, until none has one |
| ClusterLists.MergedByMembershipFacts | src/ClusterList.cpp:25-95 | the result keeps every term, is a coarsening of the input, is no longer, has no pair that can merge, and equals an input that already had none |
| ClusterLists.NoPartnerAnywhere | src/ClusterList.cpp:91-93 | when no cluster finds a partner, no pair can merge |
| ClusterLists.ClusterList.constructor | src/ClusterList.h:16 | an empty list |
| ClusterLists.ClusterList.AddCluster | src/ClusterList.h:17 | the cluster is appended, and its terms are added |
| ClusterLists.ClusterList.RemoveCluster | src/ClusterList.h:18 | the cluster at k is gone, and nothing else is |
| ClusterLists.ClusterList.MergeClusters | src/ClusterList.h:19-23 | the same position does nothing; otherwise i absorbs j, which is erased; no term is lost |
| ClusterLists.ClusterList.FilterSeeds | src/ClusterList.cpp:9-22 | it appends the seed groups kept, in key order |
| ClusterLists.ClusterList.BestMergePartner | src/ClusterList.cpp:33-67 | it returns the partner scan's candidate of cluster i |
| ClusterLists.ClusterList.FirstMergeablePair | src/ClusterList.cpp:33-89 | it returns the first cluster with a partner, and that partner's merge reaches the cutoff; nothing found means no pair can merge |
| ClusterLists.ClusterList.MergeClustersByMembership | src/ClusterList.cpp:25-95 | the list becomes `MergedByMembership` of the old one: a coarsening of the input made only of unions of input clusters, no term lost, no two clusters left able to merge, no longer than before, and unchanged when already in that state |
| ClusterManagers.ClusterManager.constructor | src/ClusterManager.cpp:10-21 | a zero matrix, an empty seed map and an empty cluster list over the columns |
| ClusterManagers.ClusterManager.New | src/ClusterManager.cpp:22-25 | fails with the size message exactly when the three columns differ in size |
| ClusterManagers.ClusterManager.CalculateDistanceScores | src/ClusterManager.cpp:29-63 | fails exactly for an unsupported metric with two terms or more; otherwise every cell holds its target, the matrix is symmetric, and the seed map relates exactly the old pairs plus the close ones |
| ClusterManagers.ClusterManager.ScoreRows | src/ClusterManager.cpp:34-62 | the outer loop fails as above, or completes the table and the links |
| ClusterManagers.ClusterManager.ScoreRow | src/ClusterManager.cpp:36-61 | one row fails as above, or extends the loop invariant to the next row |
| ClusterManagers.ClusterManager.RowDone | src/ClusterManager.cpp:34-39 | the end of a row is the start of the next |
| ClusterManagers.ClusterManager.ScorePair | src/ClusterManager.cpp:41-59 | one pair fails exactly for an unsupported metric off the diagonal; otherwise the invariant extends one column |
| ClusterManagers.ClusterManager.FilterSeeds | src/ClusterManager.cpp:66-68 | the list gains the kept seed groups under the matrix lookup |
| ClusterManagers.ClusterManager.MergeSeeds | src/ClusterManager.cpp:70-72 | the list becomes `MergedByMembership` of the old one under the matrix lookup: a coarsening of it, no term lost, no pair can merge afterwards, a settled list is unchanged |
| RichClusters.NeighborScanFacts | src/RichCluster.cpp:75-86 | the scan finds no candidate, or an outstanding neighbour whose linkage is above −1 and largest of all |
| RichClusters.NeighborScan | src/RichCluster.cpp:75-86 | one round's scan of the neighbours in order: the first outstanding neighbour of strictly largest linkage above −1, or no candidate |
| RichClusters.Grow | src/RichCluster.cpp:74-93 | rounds that add the round's best neighbour until it is below the threshold or there is none |
| RichClusters.SeedCluster | src/RichCluster.cpp:71-94 | the cluster grown from the node alone over its neighbours |
| RichClusters.SeedClusters | src/RichCluster.cpp:63-69 | the seed cluster of each adjacency entry, in key order |
| RichClusters.SeedClustersStep | src/RichCluster.cpp:63-69 | one more key appends its own seed cluster |
| RichClusters.NeighborScanFirst | src/RichCluster.cpp:82-85 | among equally linked neighbours the first in iteration order wins |
| RichClusters.NeighborScanStep | src/RichCluster.cpp:78-86 | one neighbour is skipped when inside the cluster, and replaces the best when strictly larger |
| RichClusters.FewerOutstanding | src/RichCluster.cpp:90 | adding a neighbour leaves fewer outstanding, so growth ends |
| RichClusters.ScanStopped | src/RichCluster.cpp:88-89 | a round that breaks leaves every outstanding neighbour below the threshold or at linkage −1 or less |
| RichClusters.GrowBounds | src/RichCluster.cpp:74-93 | growth only adds neighbours |
| RichClusters.GrowStops | src/RichCluster.cpp:74-93 | the grown cluster is non-empty, and no outstanding neighbour could still be added |
| RichClusters.SeedClustersFacts | src/RichCluster.cpp:63-69 | one seed cluster per entry, in order, each non-empty and holding its node within node plus neighbours |
| RichClusters.MergePartnerScanStep | src/RichCluster.cpp:127-135 | one position is skipped when it is i, and replaces the best when strictly larger and above the threshold |
| RichClusters.MergePartnerScanFacts | src/RichCluster.cpp:121-138 | −1 exactly when no other cluster's linkage is above the threshold; otherwise such a cluster with the largest linkage, strictly larger than those before it |
| RichClusters.MergePartnerScan | src/RichCluster.cpp:121-138 | the scan of cluster i over the list: the first other cluster of strictly largest linkage above the threshold and −1, or no candidate |
| RichClusters.Settled | src/RichCluster.cpp:114-116 | no cluster of the list has a merge partner |
| RichClusters.PartnerOf | src/RichCluster.cpp:107-108 | the partner the pass finds for the cluster at i, −1 for none |
| RichClusters.PartnerOfFacts | src/RichCluster.cpp:107-108 | −1 exactly when the cluster has no partner; otherwise another position of the list |
| RichClusters.PassFrom | src/RichCluster.cpp:100-113 | a pass from position i: the list left and the merge count, which never decreases and leaves the list as it was when it does not grow |
| RichClusters.PassFromStep | src/RichCluster.cpp:104-113 | a visit without partner moves on to i + 1; a merge moves on in the shortened list |
| RichClusters.PassFromUnites | src/RichCluster.cpp:100-113 | a pass keeps every term, is a coarsening, and keeps clusters non-empty |
| RichClusters.NoPartnerFromStep | src/RichCluster.cpp:104-108 | no partner from i on is no partner at i and none from i + 1 on |
| RichClusters.PassFromQuiet | src/RichCluster.cpp:100-116 | a pass from i merges nothing exactly when no cluster from i on has a partner |
| RichClusters.PassFacts | src/RichCluster.cpp:100-116 | a whole pass keeps every term, is a coarsening, shrinks the list by its merges, and merges nothing exactly when the list was settled, leaving it unchanged |
| RichClusters.MergedClusters | src/RichCluster.cpp:96-119 | passes repeated until one merges nothing |
| RichClusters.MergedClustersFacts | src/RichCluster.cpp:96-119 | the result keeps every term, is a coarsening of the input, is no longer, keeps clusters non-empty, is settled, and equals a settled input |
| RichClusters.MergeAtNonEmpty | src/ClusterList.h:19-23 | merging keeps every cluster non-empty |
| RichClusters.RichCluster.constructor | src/RichCluster.cpp:11-28 | a zero matrix, an empty adjacency list and cluster list, and a copy of the linkage method |
| RichClusters.RichCluster.New | src/RichCluster.cpp:25-27 | fails with the size message exactly when the name and gene columns differ in size |
| RichClusters.RichCluster.ComputeDistances | src/RichCluster.cpp:31-59 | fails exactly for an unsupported metric with two terms or more; otherwise every cell holds its target, the matrix is symmetric, the adjacency list relates the old pairs plus the close ones, and the matrix lookup is loaded |
| RichClusters.RichCluster.ScoreRows | src/RichCluster.cpp:35-56 | the outer loop fails as above, or completes the table and the links |
| RichClusters.RichCluster.ScoreRow | src/RichCluster.cpp:37-55 | one row fails as above, or extends the invariant to the next row |
| RichClusters.RichCluster.RowDone | src/RichCluster.cpp:35-38 | the end of a row is the start of the next |
| RichClusters.RichCluster.ScorePair | src/RichCluster.cpp:39-54 | the diagonal gets −99; another pair fails exactly for an unsupported metric, or gets its score and is linked both ways when close |
| RichClusters.RichCluster.BestNeighbor | src/RichCluster.cpp:75-86 | the round's scan returns the neighbour scan's result |
| RichClusters.RichCluster.LinkToCluster | src/RichCluster.cpp:81 | the linkage of the cluster with the single neighbour |
| RichClusters.RichCluster.FilterSeed | src/RichCluster.cpp:71-94 | the grown seed cluster: it holds the node, stays within node plus neighbours, and cannot grow further |
| RichClusters.RichCluster.FilterSeeds | src/RichCluster.cpp:63-69 | the list gains one seed cluster per adjacency entry in key order |
| RichClusters.RichCluster.LinkOfPair | src/RichCluster.cpp:130 | the linkage of the clusters at i and j |
| RichClusters.RichCluster.FindBestMergePartner | src/RichCluster.cpp:121-138 | the partner scan's result for cluster i |
| RichClusters.RichCluster.AbsorbBestPartner | src/RichCluster.cpp:107-112 | −1 exactly when cluster i has no partner, and then nothing changes; otherwise i absorbs its partner j |
| RichClusters.RichCluster.MergePass | src/RichCluster.cpp:100-116 | the list and count are those of `PassFrom` from the start: a coarsening, no term lost, the list shrinks by the merges, and a pass merges nothing exactly when the list was settled, leaving it unchanged |
| RichClusters.RichCluster.VisitAll | src/RichCluster.cpp:104-113 | the loop over the positions leaves the list and count of `PassFrom` from the start |
| RichClusters.RichCluster.MergeClusters | src/RichCluster.cpp:96-119 | the list becomes `MergedClusters` of the old one: a coarsening made of unions of input clusters, no term lost, no cluster with a partner at the end, no longer than before, and a settled list is unchanged |

## Left out

- Rcpp conversions (`export_RMatrix`, `export_RVector`, `export_RDataFrame`), `ClusterExport.cpp`, the R-facing getters and `test_richcluster.cpp` are not part of this model; they format results for R.
- `unorderedSetToString` and the regex overloads of the split functions: they only format output or are not called by the core.
- Standard output: the `std::cout` lines of the scoring loop print and change nothing.
- Doubles are modelled as mathematical reals, with no rounding, overflow or NaN. An average of empty clusters divides by zero in C++. The model instead requires non-empty clusters for "average", and proves that every cluster in the list is non-empty.
- `int` counters and indices are unbounded.
- String splitting requires a non-empty delimiter: with an empty one the C++ loop never advances. Every call in the core passes ",".
- The empty `std::function` of `LinkageMethod`, which throws before `loadDistanceFunction`, is the ghost flag `loaded`. `CalculateLinkage` and the methods calling it require it.
- `LinkageMethod.linkage` is a ghost copy of the linkage function that the method name and distance function define.
- The distance function is the lookup of the filled matrix. The C++ lambda reads the live matrix; the model takes its value when it is loaded, and the matrix does not change afterwards.
- The iteration orders of unordered maps and sets are inputs (`keyOrder`, `orderOf`), or are enumerated where values are proved not to depend on them.
- `RichCluster.cpp` does not compile as written. The model reads:
  - the size check without the nonexistent P-value column;
  - `distanceMetric` as the member `dm`;
  - `_distanceMatrix` as `distanceMatrix`;
  - `lm.loadDistanceFunction(distanceFunction)` as loading the function the member returns;
  - `calculateLinkage(cluster, n)` as linkage with the singleton `{n}`;
  - the `ClusterList` built with no arguments;
  - the stray closing brace in `filterSeeds` as absent.
- `ClusterList.cpp` uses members (`_seedMap`, `_distanceFunction`) of an older `ClusterList` header that is not part of this model. The model passes the seed map and distance function as parameters.
- `toRemove` in `RichCluster::mergeClusters` is never filled, so its two checks never skip anything and are not modelled.
- `while (mergingPossible)` in `RichCluster::mergeClusters` is `while true` with a break.
- In `ClusterList.cpp`, the check `bestMergePartnerIt != clusterList.end()` after erasing `it1` always holds, so both clusters are erased.
- In `LinkageMethod`, the iterator test `i == j` compares iterators of two different sets and never holds, so no pair is skipped.
- The "ward", "david" and membership variants in comments are not modelled.
- Loop bodies are separate helper methods (`ScoreRows`, `ScoreRow`, `ScorePair`, `BestNeighbor`, `AbsorbBestPartner`, `MergePass`, `VisitAll`); each has the same effect as the inline C++.
- RichClusters.GrowStops: the claim that growth cannot continue assumes no neighbour is −1. The scan uses −1 both as "no candidate" and as a term index, so a term −1 would be indistinguishable from none; indices in the core are never negative.
- DistanceMetrics.DistanceMetric.CalculateDistance: scores with the corrected `GetKappa`, which counts the true intersection, not what `std::set_intersection` finds over unsorted orders (see Findings). The two agree when the orders are sorted (`GetKappaAsWrittenSorted`).
- DistanceMetrics.GetKappaBounds: holds of the corrected kappa only. As written a pair can score −2 (`GetKappaAsWrittenOutOfRange`).
- ScoreTables.Score: the corrected kappa over the true intersection, for the same reason.
- ScoreTables.PairTarget: the target is the corrected kappa over the true intersection, not the as-written `getKappa`.
- ScoreTables.ScoreBounds: holds of the corrected scores only. As written a score can be −2.
- ClusterManagers.ClusterManager.CalculateDistanceScores: fills the matrix with the corrected kappa over the true intersection.
- ClusterManagers.ClusterManager.ScorePair: writes the corrected kappa over the true intersection.
- RichClusters.RichCluster.ComputeDistances: fills the matrix with the corrected kappa over the true intersection.
- RichClusters.RichCluster.ScorePair: writes the corrected kappa over the true intersection.
- ClusterManagers.ClusterManager.constructor and RichClusters.RichCluster.constructor: they require columns of equal size. The size error they throw is modelled by `New`.

## Findings

| source | as written | input that shows it | evidently intended | confidence | as-written member | corrected member |
|---|---|---|---|---|---|---|
| src/DistanceMetric.cpp:21 | `std::set_intersection` runs over two `unordered_set` orders, which it assumes sorted, so it can miss common genes | gene sets {"a","b"} and {"a","b"} iterated as ["b","a"] and ["a","b"], universe 4: one common gene found, kappa 0 instead of 1; gene sets {"a","b","c"} and {"a","b"} iterated as ["b","a","c"] and ["a","b"], universe 3: kappa −2, outside [−1, 1] | the true intersection size, giving kappa 1 and 0 | not executed | DistanceMetrics.GetKappaAsWritten, DistanceMetrics.GetKappaAsWrittenDiffers, DistanceMetrics.GetKappaAsWrittenOutOfRange | DistanceMetrics.GetKappa, DistanceMetrics.GetKappaBounds |
