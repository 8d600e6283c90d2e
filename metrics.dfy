/**
 * The representation and parity metrics of src/metrics.py: the share of
 * "Women" products in a list or in its top `k`, the statistical parity
 * difference and the disparate impact of two such shares.
 */
module Metrics {
  import opened Sequences
  import opened Products

  /** `women_representation(products)`: the share of "Women" products, 0 for an empty list. */
  function WomenRepresentation(ps: seq<Product>): real
  {
    if |ps| > 0 then CountCategory(ps, Women) as real / |ps| as real else 0.0
  }

  /** The inner `women_ratio(products)` of `compare_fairness`: the share among the first `k`. */
  function WomenRatio(ps: seq<Product>, k: nat): real
  {
    var topK := Take(ps, k);
    if topK == [] then 0.0 else CountCategory(topK, Women) as real / |topK| as real
  }

  /** The dictionary `compare_fairness` returns. */
  datatype Comparison = Comparison(baselineWomen: real, fairWomen: real)

  /** `compare_fairness(original, fair, k)`. */
  function CompareFairness(original: seq<Product>, fair: seq<Product>, k: nat): Comparison
  {
    Comparison(WomenRatio(original, k), WomenRatio(fair, k))
  }

  /** `statistical_parity_difference(baseline_wr, fair_wr)`. */
  function StatisticalParityDifference(baselineWr: real, fairWr: real): real
  {
    fairWr - baselineWr
  }

  /** `disparate_impact(baseline_wr, fair_wr)`: 0 when the baseline share is 0. */
  function DisparateImpact(baselineWr: real, fairWr: real): real
  {
    if baselineWr == 0.0 then 0.0 else fairWr / baselineWr
  }

  /** A count over a non-empty list, as a share, lies in [0, 1]; it is 1 exactly when it is the whole list. */
  lemma ShareBounds(count: nat, total: nat)
    requires count <= total && total > 0
    ensures 0.0 <= count as real / total as real <= 1.0
    ensures count as real / total as real == 1.0 <==> count == total
    ensures count as real / total as real == 0.0 <==> count == 0
  {
    var r := count as real / total as real;
    assert r * total as real == count as real;
  }

  /**
   * The share of "Women" products lies in [0, 1]; it is 0 for an empty list
   * and, for a non-empty one, 1 exactly when every product is "Women" and 0
   * exactly when none is.
   */
  lemma WomenRepresentationBounds(ps: seq<Product>)
    ensures 0.0 <= WomenRepresentation(ps) <= 1.0
    ensures ps == [] ==> WomenRepresentation(ps) == 0.0
    ensures ps != [] ==>
      (WomenRepresentation(ps) == 1.0 <==> forall i :: 0 <= i < |ps| ==> ps[i].maincateg == Women)
    ensures ps != [] ==> (WomenRepresentation(ps) == 0.0 <==> CountCategory(ps, Women) == 0)
  {
    if ps != [] {
      CountCategoryBound(ps, Women);
      CountCategoryAll(ps, Women);
      ShareBounds(CountCategory(ps, Women), |ps|);
    }
  }

  /** A product that is "Women" keeps the share above 0. */
  lemma WomenRepresentationPositive(ps: seq<Product>, i: nat)
    requires i < |ps| && ps[i].maincateg == Women
    ensures WomenRepresentation(ps) > 0.0
  {
    CountCategoryPositive(ps, i);
    CountCategoryBound(ps, Women);
    ShareBounds(CountCategory(ps, Women), |ps|);
  }

  /** The share reads only the multiset of products: reordering leaves it unchanged. */
  lemma WomenRepresentationPermutation(ps: seq<Product>, qs: seq<Product>)
    requires multiset(ps) == multiset(qs)
    ensures WomenRepresentation(ps) == WomenRepresentation(qs)
  {
    assert |ps| == |multiset(ps)| == |multiset(qs)| == |qs|;
    CountPermutation(ps, qs, Women);
  }

  /** `women_ratio` is `women_representation` of the first `k` entries. */
  lemma WomenRatioIsPrefixShare(ps: seq<Product>, k: nat)
    ensures WomenRatio(ps, k) == WomenRepresentation(Take(ps, k))
    ensures 0.0 <= WomenRatio(ps, k) <= 1.0
    ensures k == 0 || ps == [] ==> WomenRatio(ps, k) == 0.0
  {
    WomenRepresentationBounds(Take(ps, k));
  }

  /** With `k` at least the length, `women_ratio` is the share of the whole list. */
  lemma WomenRatioWholeList(ps: seq<Product>, k: nat)
    requires k >= |ps|
    ensures WomenRatio(ps, k) == WomenRepresentation(ps)
  {
    assert Take(ps, k) == ps;
  }

  /** Only the first `k` entries matter: lists that agree there compare the same. */
  lemma CompareFairnessPrefixOnly(o1: seq<Product>, o2: seq<Product>, f1: seq<Product>, f2: seq<Product>, k: nat)
    requires Take(o1, k) == Take(o2, k) && Take(f1, k) == Take(f2, k)
    ensures CompareFairness(o1, f1, k) == CompareFairness(o2, f2, k)
  {
  }

  /** Both shares `compare_fairness` reports lie in [0, 1], and are 0 for `k == 0`. */
  lemma CompareFairnessBounds(original: seq<Product>, fair: seq<Product>, k: nat)
    ensures 0.0 <= CompareFairness(original, fair, k).baselineWomen <= 1.0
    ensures 0.0 <= CompareFairness(original, fair, k).fairWomen <= 1.0
    ensures k == 0 ==> CompareFairness(original, fair, k) == Comparison(0.0, 0.0)
  {
    WomenRatioIsPrefixShare(original, k);
    WomenRatioIsPrefixShare(fair, k);
  }

  /**
   * The parity difference is antisymmetric, zero exactly when the two shares
   * agree and positive exactly when the fair share is larger.
   */
  lemma StatisticalParityDifferenceProperties(b: real, f: real)
    ensures StatisticalParityDifference(b, f) == -StatisticalParityDifference(f, b)
    ensures StatisticalParityDifference(b, f) == 0.0 <==> b == f
    ensures StatisticalParityDifference(b, f) > 0.0 <==> f > b
    ensures b + StatisticalParityDifference(b, f) == f
  {
  }

  /** Disparate impact of two shares of [0, 1] lists: 0 for a zero baseline, 1 for equal shares. */
  lemma DisparateImpactProperties(b: real, f: real)
    ensures DisparateImpact(0.0, f) == 0.0
    ensures b != 0.0 ==> DisparateImpact(b, f) * b == f
    ensures b != 0.0 ==> DisparateImpact(b, b) == 1.0
    ensures b > 0.0 ==> (DisparateImpact(b, f) > 1.0 <==> StatisticalParityDifference(b, f) > 0.0)
    ensures b > 0.0 ==> (DisparateImpact(b, f) == 1.0 <==> StatisticalParityDifference(b, f) == 0.0)
  {
    if b > 0.0 {
      var d := f / b;
      assert d * b == f;
      assert d > 1.0 ==> d * b > b;
      assert d < 1.0 ==> d * b < b;
    }
  }

  /** Disparate impact of shares is never negative. */
  lemma DisparateImpactNonNegative(b: real, f: real)
    requires 0.0 <= b && 0.0 <= f
    ensures DisparateImpact(b, f) >= 0.0
  {
    if b != 0.0 {
      var d := f / b;
      assert d * b == f;
    }
  }
}
