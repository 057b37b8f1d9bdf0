/** What the all-pairs scoring loop of both pipelines computes: for every
    ordered pair of terms (i, j), row by row, the diagonal gets the
    same-term distance and every other cell the kappa score of the two
    terms' gene sets; a pair scoring at least the cutoff is linked in both
    directions.  Because every write is mirrored, cell (i, j) is written
    twice, and the predicates below say what the table and the links hold
    after any prefix of the loop. */
module ScoreTables {
  import opened Wrappers
  import opened StringUtils
  import opened Distances
  import opened NeighborMaps
  import opened DistanceMetrics

  /** The distance stored for a term paired with itself. */
  const SameTermDistance: real := -99.0

  /** The delimiter between the gene identifiers of one term. */
  const GeneDelimiter: string := ","

  /** The gene set of term a: its comma-separated identifiers. */
  function GeneSet(geneIDs: seq<string>, a: nat): set<string>
    requires a < |geneIDs|
  {
    Elements(Split(geneIDs[a], GeneDelimiter))
  }

  /** The number of distinct genes over all terms, as a real. */
  function TotalGenes(geneIDs: seq<string>): real
  {
    |UniqueElements(geneIDs)| as real
  }

  /** Every term's genes are among the genes of the column. */
  lemma {:induction false} GeneSetInUniverse(geneIDs: seq<string>, a: nat)
    requires a < |geneIDs|
    ensures GeneSet(geneIDs, a) <= UniqueElements(geneIDs)
  {
    var init := geneIDs[..|geneIDs| - 1];
    if a < |geneIDs| - 1 {
      GeneSetInUniverse(init, a);
      assert init[a] == geneIDs[a];
    }
  }

  /** Two terms sharing a gene leave a non-empty universe, so the kappa
      precondition holds for every pair of terms. */
  lemma GenePairScorable(geneIDs: seq<string>, a: nat, b: nat)
    requires a < |geneIDs| && b < |geneIDs|
    ensures GeneSet(geneIDs, a) * GeneSet(geneIDs, b) == {} || TotalGenes(geneIDs) != 0.0
  {
    GeneSetInUniverse(geneIDs, a);
    if GeneSet(geneIDs, a) * GeneSet(geneIDs, b) != {} {
      var x := Pick(GeneSet(geneIDs, a) * GeneSet(geneIDs, b));
      assert x in UniqueElements(geneIDs);
    }
  }

  /** The kappa score of terms a and b over the column's gene universe. */
  function Score(geneIDs: seq<string>, a: nat, b: nat): real
    requires a < |geneIDs| && b < |geneIDs|
  {
    GenePairScorable(geneIDs, a, b);
    GetKappa(GeneSet(geneIDs, a), GeneSet(geneIDs, b), TotalGenes(geneIDs))
  }

  /** The value the loop writes for the pair (a, b). */
  function Target(geneIDs: seq<string>, a: nat, b: nat): real
    requires a < |geneIDs| && b < |geneIDs|
  {
    if a == b then SameTermDistance else Score(geneIDs, a, b)
  }

  /** Kappa is symmetric, so both orders of a pair get the same value. */
  lemma TargetSymmetric(geneIDs: seq<string>, a: nat, b: nat)
    requires a < |geneIDs| && b < |geneIDs|
    ensures Target(geneIDs, a, b) == Target(geneIDs, b, a)
  {
    GenePairScorable(geneIDs, a, b);
    GetKappaSymmetric(GeneSet(geneIDs, a), GeneSet(geneIDs, b), TotalGenes(geneIDs));
  }

  /** Every score of two distinct terms lies between -1 and 1. */
  lemma ScoreBounds(geneIDs: seq<string>, a: nat, b: nat)
    requires a < |geneIDs| && b < |geneIDs|
    ensures -1.0 <= Score(geneIDs, a, b) <= 1.0
  {
    GeneSetInUniverse(geneIDs, a);
    GeneSetInUniverse(geneIDs, b);
    GetKappaBounds(GeneSet(geneIDs, a), GeneSet(geneIDs, b), UniqueElements(geneIDs));
  }

  /** The loop at row i, column j has visited pair (a, b). */
  predicate Visited(a: nat, b: nat, i: nat, j: nat)
  {
    a < i || (a == i && b < j)
  }

  /** The values the loop writes, as one function of a pair of term
      indices; pairs outside the table read 0.0. */
  ghost function Targets(geneIDs: seq<string>): (int, int) -> real
  {
    (a: int, b: int) => if 0 <= a < |geneIDs| && 0 <= b < |geneIDs| then Target(geneIDs, a, b) else 0.0
  }

  /** Both orders of every pair of the n terms have the same value. */
  ghost predicate SymmetricTargets(target: (int, int) -> real, n: nat)
  {
    forall a, b :: 0 <= a < n && 0 <= b < n ==> target(a, b) == target(b, a)
  }

  lemma TargetsSymmetric(geneIDs: seq<string>)
    ensures SymmetricTargets(Targets(geneIDs), |geneIDs|)
  {
    forall a, b | 0 <= a < |geneIDs| && 0 <= b < |geneIDs|
      ensures Targets(geneIDs)(a, b) == Targets(geneIDs)(b, a)
    {
      TargetSymmetric(geneIDs, a, b);
    }
  }

  /** `target` gives every pair of terms the value the loop writes for it.
      The quantifier fires only on `Target` terms, so a loop that reasons
      about `target` does not unfold the score of every pair it mentions. */
  ghost predicate TargetsOf(target: (int, int) -> real, geneIDs: seq<string>)
  {
    forall a: nat, b: nat {:trigger Target(geneIDs, a, b)} :: a < |geneIDs| && b < |geneIDs| ==>
      target(a, b) == Target(geneIDs, a, b)
  }

  /** A symmetric function giving every pair its target value. */
  lemma MakeTargets(geneIDs: seq<string>) returns (target: (int, int) -> real)
    ensures TargetsOf(target, geneIDs) && SymmetricTargets(target, |geneIDs|)
  {
    target := Targets(geneIDs);
    TargetsSymmetric(geneIDs);
  }

  /** The metric's score of the two gene sets the loop splits off the
      column is the target of their pair. */
  lemma PairTarget(geneIDs: seq<string>, i: nat, j: nat, term1Genes: set<string>, term2Genes: set<string>,
                   totalGeneCount: nat)
    requires i < |geneIDs| && j < |geneIDs| && i != j
    requires term1Genes == GeneSet(geneIDs, i) && term2Genes == GeneSet(geneIDs, j)
    requires totalGeneCount == |UniqueElements(geneIDs)|
    ensures term1Genes * term2Genes == {} || totalGeneCount as real != 0.0
    ensures Target(geneIDs, i, j) == GetKappa(term1Genes, term2Genes, totalGeneCount as real)
  {
    GenePairScorable(geneIDs, i, j);
  }

  /** After the loop reached (i, j), each cell whose pair was visited in
      either order holds its target value, and every other cell is as it
      was at the start. */
  ghost predicate TableSoFar(cells: seq<real>, start: seq<real>, n: nat, target: (int, int) -> real, i: nat, j: nat)
  {
    IsTable(cells, n) && IsTable(start, n) &&
    forall a: nat, b: nat {:trigger Cell(cells, n, a, b)} :: a < n && b < n ==>
      Cell(cells, n, a, b) ==
        (if Visited(a, b, i, j) || Visited(b, a, i, j) then target(a, b) else Cell(start, n, a, b))
  }

  /** The mirrored write of pair (i, j) extends the table by that pair. */
  lemma TableStep(cells: seq<real>, start: seq<real>, n: nat, target: (int, int) -> real, i: nat, j: nat)
    requires i < n && j < n && SymmetricTargets(target, n)
    requires TableSoFar(cells, start, n, target, i, j)
    ensures TableSoFar(SetCells(cells, n, target(i, j), i, j), start, n, target, i, j + 1)
  {
    var d := target(i, j);
    var r := SetCells(cells, n, d, i, j);
    SetCellsReadsBack(cells, n, d, i, j);
    forall a: nat, b: nat | a < n && b < n
      ensures Cell(r, n, a, b) ==
        (if Visited(a, b, i, j + 1) || Visited(b, a, i, j + 1) then target(a, b) else Cell(start, n, a, b))
    {
      if !((a == i && b == j) || (a == j && b == i)) {
        SetCellsOtherCells(cells, n, d, i, j, a, b);
      }
    }
  }

  /** Finishing a row is starting the next one. */
  lemma TableNextRow(cells: seq<real>, start: seq<real>, n: nat, target: (int, int) -> real, i: nat)
    requires TableSoFar(cells, start, n, target, i, n)
    ensures TableSoFar(cells, start, n, target, i + 1, 0)
  {
    forall a: nat, b: nat | a < n && b < n
      ensures Visited(a, b, i, n) == Visited(a, b, i + 1, 0)
    {
    }
  }

  /** The pair (a, b) of distinct terms scores at least the cutoff. */
  predicate Linked(geneIDs: seq<string>, cutoff: real, a: int, b: int)
  {
    0 <= a < |geneIDs| && 0 <= b < |geneIDs| && a != b && Score(geneIDs, a, b) >= cutoff
  }

  lemma LinkedSymmetric(geneIDs: seq<string>, cutoff: real, a: int, b: int)
    requires Linked(geneIDs, cutoff, a, b)
    ensures Linked(geneIDs, cutoff, b, a)
  {
    TargetSymmetric(geneIDs, a, b);
  }

  /** The links after the loop reached (i, j): those there were at the
      start, with every visited pair of distinct terms whose value reaches
      the cutoff inserted in both directions, in loop order. */
  ghost function LinksUpTo(start: NeighborMap, n: nat, target: (int, int) -> real, cutoff: real,
                           i: nat, j: nat): NeighborMap
    requires j <= n
    decreases i, j
  {
    if j == 0 then
      if i == 0 then start else LinksUpTo(start, n, target, cutoff, i - 1, n)
    else
      var m := LinksUpTo(start, n, target, cutoff, i, j - 1);
      if i != j - 1 && target(i, j - 1) >= cutoff then Insert(Insert(m, i, j - 1), j - 1, i) else m
  }

  /** Finishing row i of the links is starting row i + 1. */
  lemma LinksNextRow(start: NeighborMap, n: nat, target: (int, int) -> real, cutoff: real, i: nat)
    ensures LinksUpTo(start, n, target, cutoff, i + 1, 0) == LinksUpTo(start, n, target, cutoff, i, n)
  {
  }

  /** One more column adds the pair (i, j) in both directions exactly when
      the two terms differ and their value reaches the cutoff. */
  lemma LinksStep(start: NeighborMap, n: nat, target: (int, int) -> real, cutoff: real, i: nat, j: nat)
    requires j < n
    ensures LinksUpTo(start, n, target, cutoff, i, j + 1) ==
              var m := LinksUpTo(start, n, target, cutoff, i, j);
              if i != j && target(i, j) >= cutoff then Insert(Insert(m, i, j), j, i) else m
  {
  }

  /** The pairs newly visited at (i, j) are (i, j) and (j, i). */
  lemma VisitedStep(a: nat, b: nat, i: nat, j: nat)
    ensures Visited(a, b, i, j + 1) || Visited(b, a, i, j + 1) <==>
            Visited(a, b, i, j) || Visited(b, a, i, j) || (a == i && b == j) || (a == j && b == i)
  {
  }

  /** The end of row i is the start of row i + 1. */
  lemma VisitedNextRow(a: nat, b: nat, i: nat, n: nat)
    requires a < n && b < n
    ensures Visited(a, b, i, n) == Visited(a, b, i + 1, 0)
    ensures Visited(b, a, i, n) == Visited(b, a, i + 1, 0)
  {
  }

  /** The links after (i, j) relate exactly the pairs related at the start
      and the visited pairs of distinct terms whose value reaches the
      cutoff. */
  lemma {:induction false} LinksUpToRelated(start: NeighborMap, n: nat, target: (int, int) -> real, cutoff: real,
                                            i: nat, j: nat, a: int, b: int)
    requires j <= n && i <= n && SymmetricTargets(target, n)
    requires i == n ==> j == 0
    ensures Related(LinksUpTo(start, n, target, cutoff, i, j), a, b) <==>
              Related(start, a, b) ||
              (0 <= a < n && 0 <= b < n && a != b && (Visited(a, b, i, j) || Visited(b, a, i, j)) &&
               target(a, b) >= cutoff)
    decreases i, j
  {
    if j == 0 {
      if i > 0 {
        LinksUpToRelated(start, n, target, cutoff, i - 1, n, a, b);
        if 0 <= a < n && 0 <= b < n {
          VisitedNextRow(a, b, i - 1, n);
        }
      }
    } else {
      LinksUpToRelated(start, n, target, cutoff, i, j - 1, a, b);
      LinksColumnRelated(LinksUpTo(start, n, target, cutoff, i, j - 1), LinksUpTo(start, n, target, cutoff, i, j),
                         start, n, target, cutoff, i, j - 1, a, b);
    }
  }

  /** One column of the links loop relates (a, b) exactly when it was
      related before or is the pair just visited, in either order, and
      reaches the cutoff. */
  lemma LinksColumnRelated(m: NeighborMap, m': NeighborMap, start: NeighborMap, n: nat,
                           target: (int, int) -> real, cutoff: real, i: nat, j: nat, a: int, b: int)
    requires i < n && j < n && SymmetricTargets(target, n)
    requires Related(m, a, b) <==>
               Related(start, a, b) ||
               (0 <= a < n && 0 <= b < n && a != b && (Visited(a, b, i, j) || Visited(b, a, i, j)) &&
                target(a, b) >= cutoff)
    requires m' == if i != j && target(i, j) >= cutoff then Insert(Insert(m, i, j), j, i) else m
    ensures Related(m', a, b) <==>
              Related(start, a, b) ||
              (0 <= a < n && 0 <= b < n && a != b && (Visited(a, b, i, j + 1) || Visited(b, a, i, j + 1)) &&
               target(a, b) >= cutoff)
  {
    if i != j && target(i, j) >= cutoff {
      InsertBothRelated(m, i, j, a, b);
    }
    if 0 <= a < n && 0 <= b < n {
      VisitedStep(a, b, i, j);
    }
  }

  /** After the whole loop every cell holds its target: the diagonal the
      same-term distance, every other cell the score of its pair, which
      makes the table symmetric; and two terms are linked exactly when
      they were at the start or are distinct with a score reaching the
      cutoff. */
  lemma ScoresDone(cells: seq<real>, start: seq<real>, m: NeighborMap, startLinks: NeighborMap,
                   geneIDs: seq<string>, target: (int, int) -> real, cutoff: real)
    requires TargetsOf(target, geneIDs) && SymmetricTargets(target, |geneIDs|)
    requires TableSoFar(cells, start, |geneIDs|, target, |geneIDs|, 0)
    requires m == LinksUpTo(startLinks, |geneIDs|, target, cutoff, |geneIDs|, 0)
    ensures forall a: nat, b: nat :: a < |geneIDs| && b < |geneIDs| ==>
              Cell(cells, |geneIDs|, a, b) == Target(geneIDs, a, b)
    ensures Distances.Symmetric(cells, |geneIDs|)
    ensures forall a, b :: Related(m, a, b) <==> Related(startLinks, a, b) || Linked(geneIDs, cutoff, a, b)
    ensures NeighborMaps.Symmetric(startLinks) ==> NeighborMaps.Symmetric(m)
  {
    var n := |geneIDs|;
    forall a: nat, b: nat | a < n && b < n
      ensures Cell(cells, n, a, b) == Target(geneIDs, a, b)
    {
      assert Visited(a, b, n, 0);
    }
    forall a: nat, b: nat | a < n && b < n
      ensures Cell(cells, n, a, b) == Cell(cells, n, b, a)
    {
      TargetSymmetric(geneIDs, a, b);
    }
    forall a, b
      ensures Related(m, a, b) <==> Related(startLinks, a, b) || Linked(geneIDs, cutoff, a, b)
    {
      LinksUpToRelated(startLinks, n, target, cutoff, n, 0, a, b);
      if 0 <= a < n && 0 <= b < n {
        assert Visited(a, b, n, 0);
        if a != b {
          assert Target(geneIDs, a, b) == Score(geneIDs, a, b);
        }
      }
    }
    forall a, b | Linked(geneIDs, cutoff, a, b)
      ensures Linked(geneIDs, cutoff, b, a)
    {
      LinkedSymmetric(geneIDs, cutoff, a, b);
    }
  }
}
