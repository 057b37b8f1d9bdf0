/** The term-by-term score table of RichCluster: an n×n matrix stored
    row-major in one flat array, whose every write is mirrored so that the
    table stays symmetric. */
module Distances {

  /** Row-major position of cell (i, j) in a flattened table of rows of n
      cells: i whole rows, then j cells. */
  function Index(n: nat, i: nat, j: nat): nat
  {
    if i == 0 then j else n + Index(n, i - 1, j)
  }

  /** The position is the product formula `i * n + j` of `getDistanceIndex`. */
  lemma {:induction false} IndexProduct(n: nat, i: nat, j: nat)
    ensures Index(n, i, j) == i * n + j
  {
    if i > 0 {
      IndexProduct(n, i - 1, j);
    }
  }

  /** A table of n rows has Index(n, n, 0) == n * n cells. */
  lemma TableSize(n: nat)
    ensures Index(n, n, 0) == n * n
  {
    IndexProduct(n, n, 0);
  }

  lemma {:induction false} IndexOffset(n: nat, i: nat, j: nat)
    ensures Index(n, i, j) == Index(n, i, 0) + j
  {
    if i > 0 {
      IndexOffset(n, i - 1, j);
    }
  }

  lemma {:induction false} RowsAfter(n: nat, i: nat, i2: nat)
    requires i < i2
    ensures Index(n, i, 0) + n <= Index(n, i2, 0)
  {
    if i + 1 < i2 {
      RowsAfter(n, i, i2 - 1);
    }
  }

  /** Every cell of the table has its position inside the flat array. */
  lemma IndexInRange(n: nat, i: nat, j: nat)
    requires i < n && j < n
    ensures Index(n, i, j) < Index(n, n, 0)
  {
    IndexOffset(n, i, j);
    RowsAfter(n, i, n);
  }

  /** Distinct cells never share a position. */
  lemma IndexInjective(n: nat, i: nat, j: nat, i2: nat, j2: nat)
    requires i < n && j < n && i2 < n && j2 < n
    requires Index(n, i, j) == Index(n, i2, j2)
    ensures i == i2 && j == j2
  {
    IndexOffset(n, i, j);
    IndexOffset(n, i2, j2);
    if i < i2 {
      RowsAfter(n, i, i2);
    } else if i2 < i {
      RowsAfter(n, i2, i);
    }
  }

  /** A flat table of n×n cells. */
  predicate IsTable(cells: seq<real>, n: nat)
  {
    |cells| == Index(n, n, 0)
  }

  /** The cell (i, j) of a flat table. */
  function Cell(cells: seq<real>, n: nat, i: nat, j: nat): real
    requires IsTable(cells, n) && i < n && j < n
  {
    IndexInRange(n, i, j);
    cells[Index(n, i, j)]
  }

  /** The table reads the same in both argument orders. */
  ghost predicate Symmetric(cells: seq<real>, n: nat)
    requires IsTable(cells, n)
  {
    forall i: nat, j: nat :: i < n && j < n ==> Cell(cells, n, i, j) == Cell(cells, n, j, i)
  }

  /** The two writes of one `setDistance`: cell (i, j), then cell (j, i). */
  function SetCells(cells: seq<real>, n: nat, d: real, i: nat, j: nat): (r: seq<real>)
    requires IsTable(cells, n) && i < n && j < n
    ensures IsTable(r, n)
  {
    IndexInRange(n, i, j);
    IndexInRange(n, j, i);
    cells[Index(n, i, j) := d][Index(n, j, i) := d]
  }

  /** Two point updates of a sequence, read back. */
  lemma UpdateTwice(s: seq<real>, p: nat, q: nat, d: real)
    requires p < |s| && q < |s|
    ensures s[p := d][q := d][p] == d && s[p := d][q := d][q] == d
    ensures forall k :: 0 <= k < |s| && k != p && k != q ==> s[p := d][q := d][k] == s[k]
  {
  }

  /** After a write both argument orders read the written value. */
  lemma SetCellsReadsBack(cells: seq<real>, n: nat, d: real, i: nat, j: nat)
    requires IsTable(cells, n) && i < n && j < n
    ensures Cell(SetCells(cells, n, d, i, j), n, i, j) == d
    ensures Cell(SetCells(cells, n, d, i, j), n, j, i) == d
  {
    IndexInRange(n, i, j);
    IndexInRange(n, j, i);
    UpdateTwice(cells, Index(n, i, j), Index(n, j, i), d);
  }

  /** A write touches the two mirrored positions and no other. */
  lemma SetCellsFrame(cells: seq<real>, n: nat, d: real, i: nat, j: nat)
    requires IsTable(cells, n) && i < n && j < n
    ensures forall k :: 0 <= k < |cells| && k != Index(n, i, j) && k != Index(n, j, i) ==>
              SetCells(cells, n, d, i, j)[k] == cells[k]
  {
    IndexInRange(n, i, j);
    IndexInRange(n, j, i);
    UpdateTwice(cells, Index(n, i, j), Index(n, j, i), d);
  }

  /** A write leaves every other cell of the table as it was. */
  lemma SetCellsOtherCells(cells: seq<real>, n: nat, d: real, i: nat, j: nat, a: nat, b: nat)
    requires IsTable(cells, n) && i < n && j < n && a < n && b < n
    requires !(a == i && b == j) && !(a == j && b == i)
    ensures Cell(SetCells(cells, n, d, i, j), n, a, b) == Cell(cells, n, a, b)
  {
    IndexInRange(n, a, b);
    SetCellsFrame(cells, n, d, i, j);
    if Index(n, a, b) == Index(n, i, j) {
      IndexInjective(n, a, b, i, j);
    }
    if Index(n, a, b) == Index(n, j, i) {
      IndexInjective(n, a, b, j, i);
    }
  }

  /** A write on the diagonal hits the same position twice, so exactly one
      cell changes. */
  lemma SetCellsDiagonal(cells: seq<real>, n: nat, d: real, i: nat)
    requires IsTable(cells, n) && i < n
    ensures Index(n, i, i) < |cells|
    ensures SetCells(cells, n, d, i, i) == cells[Index(n, i, i) := d]
  {
    IndexInRange(n, i, i);
  }

  /** Mirrored writes keep a symmetric table symmetric. */
  lemma SetCellsSymmetric(cells: seq<real>, n: nat, d: real, i: nat, j: nat)
    requires IsTable(cells, n) && i < n && j < n
    requires Symmetric(cells, n)
    ensures Symmetric(SetCells(cells, n, d, i, j), n)
  {
    var r := SetCells(cells, n, d, i, j);
    forall a: nat, b: nat | a < n && b < n
      ensures Cell(r, n, a, b) == Cell(r, n, b, a)
    {
      if (a == i && b == j) || (a == j && b == i) {
        SetCellsReadsBack(cells, n, d, i, j);
      } else {
        SetCellsOtherCells(cells, n, d, i, j, a, b);
        SetCellsOtherCells(cells, n, d, i, j, b, a);
      }
    }
  }

  /** The freshly sized table, all cells 0.0, is symmetric. */
  lemma ZeroTableSymmetric(cells: seq<real>, n: nat)
    requires IsTable(cells, n)
    requires forall k :: 0 <= k < |cells| ==> cells[k] == 0.0
    ensures Symmetric(cells, n)
  {
    forall a: nat, b: nat | a < n && b < n
      ensures Cell(cells, n, a, b) == Cell(cells, n, b, a)
    {
      IndexInRange(n, a, b);
      IndexInRange(n, b, a);
    }
  }

  /** The table read as a distance function of two term indices, as the
      lambda handed to the linkage code reads it; positions outside the
      table, which the pipeline never asks for, read 0.0. */
  function Lookup(cells: seq<real>, n: nat): (int, int) -> real
    requires IsTable(cells, n)
  {
    (i: int, j: int) =>
      if 0 <= i < n && 0 <= j < n then Cell(cells, n, i, j) else 0.0
  }

  /** A distance function with the same value in both argument orders. */
  ghost predicate SymmetricDistance(dist: (int, int) -> real)
  {
    forall a, b :: dist(a, b) == dist(b, a)
  }

  /** A symmetric table is read as a symmetric distance function. */
  lemma LookupSymmetric(cells: seq<real>, n: nat)
    requires IsTable(cells, n) && Symmetric(cells, n)
    ensures SymmetricDistance(Lookup(cells, n))
  {
  }

  /** The matrix object: a flat vector of nterms² distances. */
  class DistanceMatrix {
    const nterms: nat
    const termNames: seq<string>
    const distanceVector: array<real>

    ghost predicate Valid()
      reads this
    {
      distanceVector.Length == Index(nterms, nterms, 0)
    }

    /** Sizes the vector to nterms² cells, each 0.0. */
    constructor(nterms: nat, termNames: seq<string>)
      ensures Valid() && this.nterms == nterms && this.termNames == termNames
      ensures fresh(distanceVector) && distanceVector.Length == nterms * nterms
      ensures forall k :: 0 <= k < distanceVector.Length ==> distanceVector[k] == 0.0
      ensures Symmetric(distanceVector[..], nterms)
    {
      this.nterms := nterms;
      this.termNames := termNames;
      TableSize(nterms);
      distanceVector := new real[nterms * nterms](_ => 0.0);
      new;
      ZeroTableSymmetric(distanceVector[..], nterms);
    }

    /** Position of cell (term1, term2) in the flat vector: the cell's
        row-major position, inside the vector, and shared with no other
        cell. */
    function GetDistanceIndex(term1: nat, term2: nat): (r: nat)
      requires term1 < nterms && term2 < nterms
      ensures r == Index(nterms, term1, term2) && r < Index(nterms, nterms, 0)
      ensures forall a: nat, b: nat :: a < nterms && b < nterms && Index(nterms, a, b) == r ==>
                a == term1 && b == term2
    {
      IndexProduct(nterms, term1, term2);
      IndexInRange(nterms, term1, term2);
      forall a: nat, b: nat | a < nterms && b < nterms && Index(nterms, a, b) == Index(nterms, term1, term2)
        ensures a == term1 && b == term2
      {
        IndexInjective(nterms, a, b, term1, term2);
      }
      term1 * nterms + term2
    }

    /** The stored distance of cell (term1, term2); reads only. */
    function GetDistance(term1: nat, term2: nat): (d: real)
      requires Valid() && term1 < nterms && term2 < nterms
      reads this, distanceVector
      ensures d == Cell(distanceVector[..], nterms, term1, term2)
      ensures d == distanceVector[GetDistanceIndex(term1, term2)]
    {
      distanceVector[GetDistanceIndex(term1, term2)]
    }

    /** Writes the distance into cell (term1, term2) and its mirror. */
    method SetDistance(distance: real, term1: nat, term2: nat)
      requires Valid() && term1 < nterms && term2 < nterms
      modifies distanceVector
      ensures distanceVector[..] == SetCells(old(distanceVector[..]), nterms, distance, term1, term2)
      ensures GetDistance(term1, term2) == distance && GetDistance(term2, term1) == distance
      ensures Symmetric(old(distanceVector[..]), nterms) ==> Symmetric(distanceVector[..], nterms)
    {
      ghost var before := distanceVector[..];
      var distanceIndex := GetDistanceIndex(term1, term2);
      distanceVector[distanceIndex] := distance;
      var distanceIndex2 := GetDistanceIndex(term2, term1);
      distanceVector[distanceIndex2] := distance;
      assert distanceVector[..] == SetCells(before, nterms, distance, term1, term2);
      SetCellsReadsBack(before, nterms, distance, term1, term2);
      if Symmetric(before, nterms) {
        SetCellsSymmetric(before, nterms, distance, term1, term2);
      }
    }
  }
}
