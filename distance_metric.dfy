/** Scores between two terms from their gene sets: metric dispatch by name
    and Cohen's kappa of the 2×2 agreement table over the gene universe. */
module DistanceMetrics {
  import opened Wrappers

  const KappaName: string := "kappa"
  const UnsupportedMetricMessage: string := "Unsupported distance metric: "

  /** The agreement table of two gene sets over a universe of `total` genes:
      genes in both, in only the first, in only the second, in neither. */
  datatype Contingency = Contingency(common: real, t1Only: real, t2Only: real, unique: real)

  /** The table built from the three counts `getKappa` starts from; its four
      cells always add up to the universe size. */
  function Tabulate(common: nat, size1: nat, size2: nat, total: real): (c: Contingency)
    ensures c.common + c.t1Only + c.t2Only + c.unique == total
    ensures c.common + c.t1Only == size1 as real && c.common + c.t2Only == size2 as real
  {
    var t1Only := size1 as real - common as real;
    var t2Only := size2 as real - common as real;
    Contingency(common as real, t1Only, t2Only, total - common as real - t1Only - t2Only)
  }

  /** Chance agreement of the table: both say yes, or both say no. */
  function ChanceAgree(c: Contingency, total: real): real
    requires total != 0.0
  {
    var chanceYes := ((c.common + c.t1Only) / total) * ((c.common + c.t2Only) / total);
    var chanceNo := ((c.unique + c.t1Only) / total) * ((c.unique + c.t2Only) / total);
    chanceYes + chanceNo
  }

  /** Observed agreement of the table. */
  function ObservedAgree(c: Contingency, total: real): real
    requires total != 0.0
  {
    (c.common + c.unique) / total
  }

  /** Kappa from the number of common genes, the two set sizes and the
      universe size: 0 without common genes, 0 when chance agreement is
      total, else (observed - chance) / (1 - chance). */
  function KappaOfCounts(common: nat, size1: nat, size2: nat, total: real): real
    requires common == 0 || total != 0.0
  {
    if common == 0 then 0.0
    else
      var c := Tabulate(common, size1, size2, total);
      var chance := ChanceAgree(c, total);
      if chance == 1.0 then 0.0
      else (ObservedAgree(c, total) - chance) / (1.0 - chance)
  }

  /** Kappa does not care which of the two terms comes first. */
  lemma KappaSymmetric(common: nat, size1: nat, size2: nat, total: real)
    requires common == 0 || total != 0.0
    ensures KappaOfCounts(common, size1, size2, total) == KappaOfCounts(common, size2, size1, total)
  {
    if common != 0 {
      var c := Tabulate(common, size1, size2, total);
      var c' := Tabulate(common, size2, size1, total);
      assert c'.t1Only == c.t2Only && c'.t2Only == c.t1Only && c'.unique == c.unique;
      assert ObservedAgree(c', total) == ObservedAgree(c, total);
      assert ChanceAgree(c', total) == ChanceAgree(c, total);
    }
  }

  /** The table as proportions of the universe. */
  function Proportions(t: Contingency, total: real): Contingency
    requires total != 0.0
  {
    Contingency(t.common / total, t.t1Only / total, t.t2Only / total, t.unique / total)
  }

  /** The denominator (a+b)(b+d) + (a+c)(c+d) of kappa's closed form, for
      the cells a, b, c, d of a table of proportions. */
  function KappaDenominator(p: Contingency): real
  {
    (p.common + p.t1Only) * (p.t1Only + p.unique) + (p.common + p.t2Only) * (p.t2Only + p.unique)
  }

  /** The numerator 2(ad - bc) of kappa's closed form. */
  function KappaNumerator(p: Contingency): real
  {
    2.0 * (p.common * p.unique - p.t1Only * p.t2Only)
  }

  lemma DivSum(x: real, y: real, n: real)
    requires n != 0.0
    ensures (x + y) / n == x / n + y / n
  {
  }

  /** Observed and chance agreement written in the proportions, which add
      up to 1. */
  lemma AgreementOfProportions(t: Contingency, total: real)
    requires total != 0.0 && t.common + t.t1Only + t.t2Only + t.unique == total
    ensures var p := Proportions(t, total);
      p.common + p.t1Only + p.t2Only + p.unique == 1.0 &&
      ObservedAgree(t, total) == p.common + p.unique &&
      ChanceAgree(t, total) == (p.common + p.t1Only) * (p.common + p.t2Only)
                             + (p.unique + p.t1Only) * (p.unique + p.t2Only)
  {
    DivSum(t.common, t.t1Only, total);
    DivSum(t.common, t.t2Only, total);
    DivSum(t.unique, t.t1Only, total);
    DivSum(t.unique, t.t2Only, total);
    DivSum(t.common, t.unique, total);
    DivSum(t.common + t.t1Only, t.t2Only + t.unique, total);
    DivSum(t.t2Only, t.unique, total);
    assert (t.common + t.t1Only + (t.t2Only + t.unique)) / total == 1.0;
  }

  /** The two polynomial identities behind the closed form, for proportions
      adding up to 1. */
  lemma ProportionIdentities(a: real, b: real, c: real, d: real)
    requires a + b + c + d == 1.0
    ensures 1.0 - ((a + b) * (a + c) + (d + b) * (d + c)) == (a + b) * (b + d) + (a + c) * (c + d)
    ensures (a + d) - ((a + b) * (a + c) + (d + b) * (d + c)) == 2.0 * (a * d - b * c)
  {
    calc {
      1.0 - ((a + b) * (a + c) + (d + b) * (d + c));
      (a + b + c + d) * (a + b + c + d) - ((a + b) * (a + c) + (d + b) * (d + c));
      (a + b) * (b + d) + (a + c) * (c + d);
    }
    calc {
      (a + d) - ((a + b) * (a + c) + (d + b) * (d + c));
      (a + d) * (a + b + c + d) - ((a + b) * (a + c) + (d + b) * (d + c));
      2.0 * (a * d - b * c);
    }
  }

  /** One minus chance agreement is the closed form's denominator, and
      observed minus chance agreement its numerator. */
  lemma AgreementGaps(t: Contingency, total: real)
    requires total != 0.0 && t.common + t.t1Only + t.t2Only + t.unique == total
    ensures 1.0 - ChanceAgree(t, total) == KappaDenominator(Proportions(t, total))
    ensures ObservedAgree(t, total) - ChanceAgree(t, total) == KappaNumerator(Proportions(t, total))
  {
    var p := Proportions(t, total);
    AgreementOfProportions(t, total);
    ProportionGaps(p.common, p.t1Only, p.t2Only, p.unique, ObservedAgree(t, total), ChanceAgree(t, total));
  }

  lemma ProportionGaps(a: real, b: real, c: real, d: real, observed: real, chance: real)
    requires a + b + c + d == 1.0 && observed == a + d
    requires chance == (a + b) * (a + c) + (d + b) * (d + c)
    ensures 1.0 - chance == (a + b) * (b + d) + (a + c) * (c + d)
    ensures observed - chance == 2.0 * (a * d - b * c)
  {
    ProportionIdentities(a, b, c, d);
  }

  /** Kappa in closed form over the proportions a, b, c, d of its table:
      chance agreement is 1 exactly when (a+b)(b+d) + (a+c)(c+d) vanishes,
      and otherwise kappa is 2(ad - bc) divided by it. */
  lemma KappaClosedForm(common: nat, size1: nat, size2: nat, total: real)
    requires common != 0 && total != 0.0
    ensures var t := Tabulate(common, size1, size2, total);
      var p := Proportions(t, total);
      (ChanceAgree(t, total) == 1.0 <==> KappaDenominator(p) == 0.0) &&
      (KappaDenominator(p) != 0.0 ==>
         KappaOfCounts(common, size1, size2, total) == KappaNumerator(p) / KappaDenominator(p))
  {
    var t := Tabulate(common, size1, size2, total);
    var p := Proportions(t, total);
    AgreementGaps(t, total);
    EqualQuotients(ObservedAgree(t, total), ChanceAgree(t, total), KappaNumerator(p), KappaDenominator(p));
  }

  lemma EqualQuotients(po: real, pe: real, num: real, den: real)
    requires 1.0 - pe == den && po - pe == num
    ensures pe == 1.0 <==> den == 0.0
    ensures den != 0.0 ==> (po - pe) / (1.0 - pe) == num / den
  {
  }

  lemma MulNonNegative(x: real, y: real)
    requires x >= 0.0 && y >= 0.0
    ensures x * y >= 0.0
  {
  }

  lemma Square(x: real)
    ensures x * x >= 0.0
  {
    if x < 0.0 {
      MulNonNegative(-x, -x);
    } else {
      MulNonNegative(x, x);
    }
  }

  lemma PolyUpper(a: real, b: real, c: real, d: real)
    ensures ((a + b) * (b + d) + (a + c) * (c + d)) - 2.0 * (a * d - b * c) == (b + c) * (a + b + c + d)
  {
  }

  lemma PolyLower(a: real, b: real, c: real, d: real)
    ensures ((a + b) * (b + d) + (a + c) * (c + d)) + 2.0 * (a * d - b * c)
         == 4.0 * (a * d) + a * b + a * c + b * d + c * d + (b - c) * (b - c)
  {
  }

  lemma DivNonNegative(x: real, n: real)
    requires x >= 0.0 && n > 0.0
    ensures x / n >= 0.0
  {
  }

  /** For a proper table (no negative cell) kappa lies in [-1, 1]. */
  lemma KappaBounds(common: nat, size1: nat, size2: nat, total: real)
    requires common != 0 && total != 0.0
    requires common <= size1 && common <= size2 && (size1 + size2 - common) as real <= total
    ensures -1.0 <= KappaOfCounts(common, size1, size2, total) <= 1.0
  {
    var t := Tabulate(common, size1, size2, total);
    var p := Proportions(t, total);
    KappaClosedForm(common, size1, size2, total);
    assert t.common >= 0.0 && t.t1Only >= 0.0 && t.t2Only >= 0.0 && t.unique >= 0.0 && total > 0.0;
    DivNonNegative(t.common, total);
    DivNonNegative(t.t1Only, total);
    DivNonNegative(t.t2Only, total);
    DivNonNegative(t.unique, total);
    ProperTableBounds(p);
    if KappaDenominator(p) == 0.0 {
      assert ChanceAgree(t, total) == 1.0;
    }
  }

  /** The closed form of a table without negative cells lies in [-1, 1]. */
  lemma ProperTableBounds(p: Contingency)
    requires p.common >= 0.0 && p.t1Only >= 0.0 && p.t2Only >= 0.0 && p.unique >= 0.0
    ensures KappaDenominator(p) >= 0.0
    ensures KappaDenominator(p) != 0.0 ==> -1.0 <= KappaNumerator(p) / KappaDenominator(p) <= 1.0
  {
    var a, b, c, d := p.common, p.t1Only, p.t2Only, p.unique;
    MulNonNegative(a + b, b + d);
    MulNonNegative(a + c, c + d);
    if KappaDenominator(p) != 0.0 {
      UpperGap(a, b, c, d);
      LowerGap(a, b, c, d);
      QuotientBounds(KappaNumerator(p), KappaDenominator(p));
    }
  }

  /** den - num = (b + c)(a + b + c + d) is never negative. */
  lemma UpperGap(a: real, b: real, c: real, d: real)
    requires a >= 0.0 && b >= 0.0 && c >= 0.0 && d >= 0.0
    ensures 2.0 * (a * d - b * c) <= (a + b) * (b + d) + (a + c) * (c + d)
  {
    MulNonNegative(b + c, a + b + c + d);
    PolyUpper(a, b, c, d);
  }

  /** den + num = 4ad + ab + ac + bd + cd + (b - c)² is never negative. */
  lemma LowerGap(a: real, b: real, c: real, d: real)
    requires a >= 0.0 && b >= 0.0 && c >= 0.0 && d >= 0.0
    ensures -((a + b) * (b + d) + (a + c) * (c + d)) <= 2.0 * (a * d - b * c)
  {
    MulNonNegative(a, d);
    MulNonNegative(a, b);
    MulNonNegative(a, c);
    MulNonNegative(b, d);
    MulNonNegative(c, d);
    Square(b - c);
    PolyLower(a, b, c, d);
  }

  lemma QuotientBounds(num: real, den: real)
    requires den > 0.0 && -den <= num <= den
    ensures -1.0 <= num / den <= 1.0
  {
  }

  /** Kappa of two gene sets over a universe of `total` genes, counting the
      genes the two sets share. */
  function GetKappa(t1Genes: set<string>, t2Genes: set<string>, total: real): real
    requires t1Genes * t2Genes == {} || total != 0.0
  {
    KappaOfCounts(|t1Genes * t2Genes|, |t1Genes|, |t2Genes|, total)
  }

  /** Two gene sets without a common gene score 0, whatever the universe. */
  lemma GetKappaDisjoint(t1Genes: set<string>, t2Genes: set<string>, total: real)
    requires t1Genes * t2Genes == {}
    ensures GetKappa(t1Genes, t2Genes, total) == 0.0
  {
  }

  /** Swapping the two terms does not change their score. */
  lemma GetKappaSymmetric(t1Genes: set<string>, t2Genes: set<string>, total: real)
    requires t1Genes * t2Genes == {} || total != 0.0
    ensures GetKappa(t1Genes, t2Genes, total) == GetKappa(t2Genes, t1Genes, total)
  {
    assert t1Genes * t2Genes == t2Genes * t1Genes;
    KappaSymmetric(|t1Genes * t2Genes|, |t1Genes|, |t2Genes|, total);
  }

  lemma UnionSize(t1Genes: set<string>, t2Genes: set<string>)
    ensures |t1Genes + t2Genes| == |t1Genes| + |t2Genes| - |t1Genes * t2Genes|
  {
    var both := t1Genes * t2Genes;
    assert t1Genes + t2Genes == t1Genes + (t2Genes - both);
    assert t2Genes == both + (t2Genes - both);
  }

  /** Two gene sets drawn from the universe score between -1 and 1. */
  lemma GetKappaBounds(t1Genes: set<string>, t2Genes: set<string>, universe: set<string>)
    requires t1Genes <= universe && t2Genes <= universe
    ensures t1Genes * t2Genes == {} || |universe| as real != 0.0
    ensures -1.0 <= GetKappa(t1Genes, t2Genes, |universe| as real) <= 1.0
  {
    var both := t1Genes * t2Genes;
    if both != {} {
      assert both <= t1Genes && both <= t2Genes;
      CardMono(both, t1Genes);
      CardMono(both, t2Genes);
      UnionSize(t1Genes, t2Genes);
      CardMono(t1Genes + t2Genes, universe);
      var x :| x in both;
      CardMono({x}, universe);
      KappaBounds(|both|, |t1Genes|, |t2Genes|, |universe| as real);
    }
  }

  lemma CardMono<T>(a: set<T>, b: set<T>)
    requires a <= b
    ensures |a| <= |b|
  {
    assert b == a + (b - a);
  }

  /** A distance metric: its name and the score a pair needs to be linked. */
  datatype DistanceMetric = DistanceMetric(distanceMetric: string, distanceCutoff: real)
  {
    /** Dispatches on the metric name: only "kappa" is known, any other
        name throws `invalid_argument` naming the metric. */
    function CalculateDistance(t1Genes: set<string>, t2Genes: set<string>, totalGeneCount: real): (r: Result<real>)
      requires t1Genes * t2Genes == {} || totalGeneCount != 0.0
      ensures r.Success? <==> distanceMetric == KappaName
      ensures r.Success? ==> r.value == GetKappa(t1Genes, t2Genes, totalGeneCount)
      ensures r.Failure? ==> r.error == InvalidArgument(UnsupportedMetricMessage + distanceMetric)
    {
      if distanceMetric == KappaName then Success(GetKappa(t1Genes, t2Genes, totalGeneCount))
      else Failure(InvalidArgument(UnsupportedMetricMessage + distanceMetric))
    }
  }

  /** Swapping the two terms does not change the outcome of the dispatch. */
  lemma CalculateDistanceSymmetric(dm: DistanceMetric, t1Genes: set<string>, t2Genes: set<string>, total: real)
    requires t1Genes * t2Genes == {} || total != 0.0
    ensures dm.CalculateDistance(t1Genes, t2Genes, total) == dm.CalculateDistance(t2Genes, t1Genes, total)
  {
    GetKappaSymmetric(t1Genes, t2Genes, total);
  }

  // ----------------------------------------------------------------------
  // The intersection as written: std::set_intersection over the iteration
  // orders of two hash sets, which assumes both ranges are sorted.

  /** `std::string`'s `operator<`: lexicographic order on characters. */
  predicate StrLess(a: string, b: string)
  {
    if |a| == 0 then |b| > 0
    else |b| > 0 && (a[0] < b[0] || (a[0] == b[0] && StrLess(a[1..], b[1..])))
  }

  /** Neither string before the other means they are equal. */
  lemma {:induction false} StrLessTrichotomy(a: string, b: string)
    requires !StrLess(a, b) && !StrLess(b, a)
    ensures a == b
  {
    if |a| > 0 && |b| > 0 {
      StrLessTrichotomy(a[1..], b[1..]);
      assert a == [a[0]] + a[1..] && b == [b[0]] + b[1..];
    }
  }

  /** No string comes before itself. */
  lemma {:induction false} StrLessIrreflexive(a: string)
    ensures !StrLess(a, a)
  {
    if |a| > 0 {
      StrLessIrreflexive(a[1..]);
    }
  }

  /** The order on strings is transitive. */
  lemma {:induction false} StrLessTransitive(a: string, b: string, c: string)
    requires StrLess(a, b) && StrLess(b, c)
    ensures StrLess(a, c)
  {
    if |a| > 0 && a[0] == b[0] && b[0] == c[0] {
      StrLessTransitive(a[1..], b[1..], c[1..]);
    }
  }

  /** A range in strictly increasing order, as `std::set_intersection`
      expects its inputs. */
  predicate StrSorted(r: seq<string>)
  {
    forall a, b :: 0 <= a < b < |r| ==> StrLess(r[a], r[b])
  }

  /** A string before the head of a sorted range is not in the range. */
  lemma BelowSorted(x: string, r: seq<string>)
    requires StrSorted(r) && |r| > 0 && StrLess(x, r[0])
    ensures x !in Elements(r)
  {
    StrLessIrreflexive(x);
    forall k | 0 < k < |r|
      ensures r[k] != x
    {
      StrLessTransitive(x, r[0], r[k]);
      StrLessIrreflexive(r[k]);
    }
  }

  /** The tail of a sorted range is sorted and lacks the head. */
  lemma SortedTail(r: seq<string>)
    requires StrSorted(r) && |r| > 0
    ensures StrSorted(r[1..]) && r[0] !in Elements(r[1..])
  {
    forall k | 0 <= k < |r| - 1
      ensures r[1..][k] != r[0]
    {
      assert StrLess(r[0], r[k + 1]);
      StrLessIrreflexive(r[0]);
    }
  }

  /** The merge loop of `std::set_intersection` on two ranges: skip the
      smaller head, emit the first head when neither is smaller. */
  function SetIntersection(r1: seq<string>, r2: seq<string>): (out: seq<string>)
    decreases |r1| + |r2|
  {
    if |r1| == 0 || |r2| == 0 then []
    else if StrLess(r1[0], r2[0]) then SetIntersection(r1[1..], r2)
    else if !StrLess(r2[0], r1[0]) then [r1[0]] + SetIntersection(r1[1..], r2[1..])
    else SetIntersection(r1, r2[1..])
  }

  /** Whatever the order, every emitted gene is in both ranges. */
  lemma {:induction false} SetIntersectionSound(r1: seq<string>, r2: seq<string>)
    ensures Elements(SetIntersection(r1, r2)) <= Elements(r1) * Elements(r2)
    decreases |r1| + |r2|
  {
    if |r1| == 0 || |r2| == 0 {
    } else if StrLess(r1[0], r2[0]) {
      SetIntersectionSound(r1[1..], r2);
      assert Elements(r1[1..]) <= Elements(r1);
    } else if !StrLess(r2[0], r1[0]) {
      StrLessTrichotomy(r1[0], r2[0]);
      SetIntersectionSound(r1[1..], r2[1..]);
      assert Elements(r1[1..]) <= Elements(r1);
      assert Elements(r2[1..]) <= Elements(r2);
      assert Elements([r1[0]] + SetIntersection(r1[1..], r2[1..]))
          == {r1[0]} + Elements(SetIntersection(r1[1..], r2[1..]));
    } else {
      SetIntersectionSound(r1, r2[1..]);
      assert Elements(r2[1..]) <= Elements(r2);
    }
  }

  /** The counted common genes never exceed the true overlap, which never
      exceeds either set. */
  lemma SetIntersectionBounds(t1Genes: set<string>, t2Genes: set<string>, r1: seq<string>, r2: seq<string>)
    requires Elements(r1) == t1Genes && Elements(r2) == t2Genes
    ensures |Elements(SetIntersection(r1, r2))| <= |t1Genes * t2Genes|
    ensures |t1Genes * t2Genes| <= |t1Genes| && |t1Genes * t2Genes| <= |t2Genes|
  {
    SetIntersectionSound(r1, r2);
    CardMono(Elements(SetIntersection(r1, r2)), t1Genes * t2Genes);
    CardMono(t1Genes * t2Genes, t1Genes);
    CardMono(t1Genes * t2Genes, t2Genes);
  }

  /** On sorted ranges, which is what `std::set_intersection` requires,
      the merge emits exactly the common genes. */
  lemma {:induction false} SetIntersectionSorted(r1: seq<string>, r2: seq<string>)
    requires StrSorted(r1) && StrSorted(r2)
    ensures Elements(SetIntersection(r1, r2)) == Elements(r1) * Elements(r2)
    decreases |r1| + |r2|
  {
    if |r1| == 0 || |r2| == 0 {
    } else if StrLess(r1[0], r2[0]) {
      SortedTail(r1);
      SetIntersectionSorted(r1[1..], r2);
      BelowSorted(r1[0], r2);
      assert Elements(r1) == {r1[0]} + Elements(r1[1..]);
    } else if !StrLess(r2[0], r1[0]) {
      StrLessTrichotomy(r1[0], r2[0]);
      SortedTail(r1);
      SortedTail(r2);
      SetIntersectionSorted(r1[1..], r2[1..]);
      assert Elements(r1) == {r1[0]} + Elements(r1[1..]);
      assert Elements(r2) == {r2[0]} + Elements(r2[1..]);
      assert Elements([r1[0]] + SetIntersection(r1[1..], r2[1..]))
          == {r1[0]} + Elements(SetIntersection(r1[1..], r2[1..]));
    } else {
      SortedTail(r2);
      SetIntersectionSorted(r1, r2[1..]);
      BelowSorted(r2[0], r1);
      assert Elements(r2) == {r2[0]} + Elements(r2[1..]);
    }
  }

  /** `getKappa` as written: the common count is the size of what
      std::set_intersection emits for the two iteration orders. */
  function GetKappaAsWritten(t1Genes: set<string>, t2Genes: set<string>,
                             order1: seq<string>, order2: seq<string>, total: real): (r: real)
    requires Elements(order1) == t1Genes && Elements(order2) == t2Genes
    requires t1Genes * t2Genes == {} || total != 0.0
    ensures t1Genes * t2Genes == {} ==> r == 0.0
  {
    SetIntersectionBounds(t1Genes, t2Genes, order1, order2);
    KappaOfCounts(|Elements(SetIntersection(order1, order2))|, |t1Genes|, |t2Genes|, total)
  }

  /** When both hash orders happen to be sorted, `getKappa` as written is
      the kappa of the true overlap. */
  lemma GetKappaAsWrittenSorted(t1Genes: set<string>, t2Genes: set<string>,
                                order1: seq<string>, order2: seq<string>, total: real)
    requires Elements(order1) == t1Genes && Elements(order2) == t2Genes
    requires t1Genes * t2Genes == {} || total != 0.0
    requires StrSorted(order1) && StrSorted(order2)
    ensures GetKappaAsWritten(t1Genes, t2Genes, order1, order2, total) == GetKappa(t1Genes, t2Genes, total)
  {
    SetIntersectionSorted(order1, order2);
  }

  /** Two hash orders of the same two genes: the merge emits only "b", so
      one common gene is counted instead of two. */
  lemma SetIntersectionUndercounts(order1: seq<string>, order2: seq<string>)
    requires order1 == ["b", "a"] && order2 == ["a", "b"]
    ensures SetIntersection(order1, order2) == ["b"]
    ensures |Elements(order1) * Elements(order2)| == 2
  {
    assert StrLess("a", "b");
    assert !StrLess("b", "a");
    assert SetIntersection(order1, order2) == SetIntersection(order1, ["b"]);
    assert !StrLess("b", "b");
    assert SetIntersection(order1, ["b"]) == ["b"] + SetIntersection(["a"], []);
    assert Elements(order1) == {"a", "b"} && Elements(order2) == {"a", "b"};
    assert Elements(order1) * Elements(order2) == {"a", "b"};
  }

  /** Consequence: two terms with the same two genes, in a universe of four
      genes, score 0 as written but kappa 1 when the overlap is counted. */
  lemma GetKappaAsWrittenDiffers(order1: seq<string>, order2: seq<string>)
    requires order1 == ["b", "a"] && order2 == ["a", "b"]
    ensures GetKappaAsWritten({"a", "b"}, {"a", "b"}, order1, order2, 4.0) == 0.0
    ensures GetKappa({"a", "b"}, {"a", "b"}, 4.0) == 1.0
  {
    SetIntersectionUndercounts(order1, order2);
    assert Elements(order1) == {"a", "b"} && Elements(order2) == {"a", "b"};
    assert Elements(["b"]) == {"b"};
    KappaOneOfTwo();
    KappaTwoOfTwo();
    assert {"a", "b"} * {"a", "b"} == {"a", "b"};
  }

  lemma KappaOneOfTwo()
    ensures KappaOfCounts(1, 2, 2, 4.0) == 0.0
  {
    var t := Tabulate(1, 2, 2, 4.0);
    assert t == Contingency(1.0, 1.0, 1.0, 1.0);
    assert ChanceAgree(t, 4.0) == 0.5;
    assert ObservedAgree(t, 4.0) == 0.5;
  }

  lemma KappaTwoOfTwo()
    ensures KappaOfCounts(2, 2, 2, 4.0) == 1.0
  {
    var t := Tabulate(2, 2, 2, 4.0);
    assert t == Contingency(2.0, 0.0, 0.0, 2.0);
    assert ChanceAgree(t, 4.0) == 0.5;
    assert ObservedAgree(t, 4.0) == 1.0;
  }

  /** The undercount can leave kappa's range: {a, b, c} against {a, b} in
      a universe of three genes, traversed as b, a, c and a, b, counts one
      common gene and gives -2, where the true overlap of two gives 0. */
  lemma GetKappaAsWrittenOutOfRange(order1: seq<string>, order2: seq<string>)
    requires order1 == ["b", "a", "c"] && order2 == ["a", "b"]
    ensures GetKappaAsWritten({"a", "b", "c"}, {"a", "b"}, order1, order2, 3.0) == -2.0
    ensures GetKappa({"a", "b", "c"}, {"a", "b"}, 3.0) == 0.0
  {
    assert StrLess("a", "b") && !StrLess("b", "a") && !StrLess("b", "b");
    assert SetIntersection(order1, order2) == SetIntersection(order1, ["b"]);
    assert order1[1..] == ["a", "c"] && order2[1..] == ["b"];
    assert SetIntersection(order1, ["b"]) == ["b"] + SetIntersection(["a", "c"], []);
    assert SetIntersection(["a", "c"], []) == [];
    assert SetIntersection(order1, order2) == ["b"];
    assert Elements(order1) == {"a", "b", "c"} && Elements(order2) == {"a", "b"};
    assert Elements(["b"]) == {"b"};
    assert {"a", "b", "c"} * {"a", "b"} == {"a", "b"};
    assert |{"a", "b", "c"}| == 3 && |{"a", "b"}| == 2;
    assert |Elements(SetIntersection(order1, order2))| == 1;
    KappaOneOfThreeTwo();
    KappaTwoOfThreeTwo();
  }

  lemma KappaOneOfThreeTwo()
    ensures KappaOfCounts(1, 3, 2, 3.0) == -2.0
  {
    var t := Tabulate(1, 3, 2, 3.0);
    assert t == Contingency(1.0, 2.0, 1.0, -1.0);
    assert ChanceAgree(t, 3.0) == 2.0 / 3.0;
    assert ObservedAgree(t, 3.0) == 0.0;
  }

  lemma KappaTwoOfThreeTwo()
    ensures KappaOfCounts(2, 3, 2, 3.0) == 0.0
  {
    var t := Tabulate(2, 3, 2, 3.0);
    assert t == Contingency(2.0, 1.0, 0.0, 0.0);
    assert ChanceAgree(t, 3.0) == 2.0 / 3.0;
    assert ObservedAgree(t, 3.0) == 2.0 / 3.0;
  }
}
