/**
 * The decision logic of the dashboard in streamlit_app.py, without its
 * presentation: `compute_fairness` (men and women percentages of a frame and
 * their gap, rounded to two places), the baseline ranking
 * `sorted(products, key=baseline_score, reverse=True)`, the statistical
 * parity difference of the two gaps and the three-way final verdict.
 * A frame is the sequence of its rows' products.
 */
module Dashboard {
  import opened Sequences
  import opened StableSort
  import opened Rounding
  import opened Products
  import opened FairRanking

  /** Decimal places of the percentages, the gap and the parity difference. */
  const PctPlaces: nat := 2

  function Abs(x: real): (r: real)
    ensures r >= 0.0 && (r == x || r == -x)
  {
    if x < 0.0 then -x else x
  }

  /** `round((count / total) * 100, 2) if total else 0`. */
  function Percent(count: nat, total: nat): real
  {
    if total > 0 then Round(count as real / total as real * 100.0, PctPlaces) else 0.0
  }

  /** The triple `(men_pct, women_pct, gap)` of `compute_fairness`. */
  datatype Fairness = Fairness(menPct: real, womenPct: real, gap: real)

  /** `compute_fairness(df)`. */
  function ComputeFairness(frame: seq<Product>): Fairness
  {
    var total := |frame|;
    var women := CountCategory(frame, Women);
    var men := CountCategory(frame, Men);
    var womenPct := Percent(women, total);
    var menPct := Percent(men, total);
    Fairness(menPct, womenPct, Round(Abs(womenPct - menPct), PctPlaces))
  }

  /** The baseline ranking: all products, stably sorted by `baseline_score`, highest first. */
  function Baseline(ps: seq<Product>): seq<Product>
  {
    SortDesc(ps, BaselineKey)
  }

  /** `spd = round(b_gap - f_gap, 2)`. */
  function Spd(bGap: real, fGap: real): real
  {
    Round(bGap - fGap, PctPlaces)
  }

  /** The three messages of the final verdict. */
  datatype Verdict = NoBias | BiasReduced | BiasRemains

  /** The verdict branch: no bias when the baseline gap is 0, reduced when the fair gap is smaller. */
  function FinalVerdict(bGap: real, fGap: real): Verdict
  {
    if bGap == 0.0 then NoBias
    else if fGap < bGap then BiasReduced
    else BiasRemains
  }

  /** What one press of the run button computes, for `k >= 0`. */
  datatype Report = Report(baseline: Fairness, fair: Fairness, spd: real, verdict: Verdict)

  /**
   * How a press of the run button ends: a frame built from an empty list has
   * no "maincateg" column, so `compute_fairness` raises `KeyError` on it.
   */
  datatype Outcome = KeyError | Reported(report: Report)

  /** Lines 84-116 and 161-172: both top-`k` frames, their fairness, the parity difference and the verdict. */
  function Run(products: seq<Product>, k: nat): Outcome
  {
    var baselineTop := Take(Baseline(products), k);
    var fairTop := Take(MapSeq(FairTop(products, k), ToProduct), k);
    if baselineTop == [] || fairTop == [] then KeyError
    else
      var b := ComputeFairness(baselineTop);
      var f := ComputeFairness(fairTop);
      Reported(Report(b, f, Spd(b.gap, f.gap), FinalVerdict(b.gap, f.gap)))
  }

  lemma PercentGrid()
    ensures Pow10(PctPlaces) as real == 100.0
  {
  }

  /** Rounding a percentage of [0, 100] keeps it in [0, 100]. */
  lemma PercentBounds(count: nat, total: nat)
    requires count <= total
    ensures 0.0 <= Percent(count, total) <= 100.0
    ensures count == 0 ==> Percent(count, total) == 0.0
    ensures count == total && total > 0 ==> Percent(count, total) == 100.0
  {
    if total > 0 {
      var x := count as real / total as real * 100.0;
      assert count as real / total as real <= 1.0 by {
        assert count as real / total as real * total as real == count as real;
      }
      PercentGrid();
      RoundOnGrid(0, PctPlaces);
      RoundOnGrid(10000, PctPlaces);
      RoundMonotone(0.0, x, PctPlaces);
      RoundMonotone(x, 100.0, PctPlaces);
      if count == total {
        RatioBounds(count, total);
      }
    }
  }

  /**
   * Two half-even roundings of values whose sum is at most an even integer
   * `n` add up to at most `n`: both can overshoot by one half only on two
   * ties, and ties round to even neighbours, whose sum cannot be `n + 1`.
   */
  lemma RoundHalfEvenIntSum(x: real, y: real, n: int)
    requires x + y <= n as real && n % 2 == 0
    ensures RoundHalfEvenInt(x) + RoundHalfEvenInt(y) <= n
  {
    var a, b := RoundHalfEvenInt(x), RoundHalfEvenInt(y);
  }

  /** Shares of two counts add up to the share of their sum, at most 1 when that sum fits. */
  lemma ShareSum(c: nat, d: nat, total: nat)
    requires c + d <= total && total > 0
    ensures c as real / total as real + d as real / total as real <= 1.0
  {
    var u, v := c as real / total as real, d as real / total as real;
    assert u * total as real == c as real;
    assert v * total as real == d as real;
    assert (u + v) * total as real == (c + d) as real;
  }

  /** Percentages of two disjoint counts add up to at most 100, rounding included. */
  lemma PercentSum(c: nat, d: nat, total: nat)
    requires c + d <= total
    ensures Percent(c, total) + Percent(d, total) <= 100.0
  {
    if total > 0 {
      var u, v := c as real / total as real, d as real / total as real;
      ShareSum(c, d, total);
      PercentGrid();
      RoundScaledValue(u * 100.0, 100.0);
      RoundScaledValue(v * 100.0, 100.0);
      RoundHalfEvenIntSum(u * 100.0 * 100.0, v * 100.0 * 100.0, 10000);
    }
  }

  /** A two-place value's absolute value is already rounded to two places. */
  lemma RoundAbsOnGrid(x: real)
    ensures Round(Abs(Round(x, PctPlaces)), PctPlaces) == Abs(Round(x, PctPlaces))
  {
    PercentGrid();
    RoundScaledValue(x, 100.0);
    var n := RoundHalfEvenInt(x * 100.0);
    var m := if n < 0 then -n else n;
    assert Abs(Round(x, PctPlaces)) == m as real / 100.0;
    RoundOnGrid(m, PctPlaces);
  }

  /** The difference of two percentages is itself on the two-place grid. */
  lemma GapOnGrid(w: nat, m: nat, total: nat)
    ensures Round(Abs(Percent(w, total) - Percent(m, total)), PctPlaces)
         == Abs(Percent(w, total) - Percent(m, total))
  {
    if total > 0 {
      var x := w as real / total as real * 100.0;
      var y := m as real / total as real * 100.0;
      RoundDifference(x, y, PctPlaces);
      RoundAbsOnGrid(Round(x, PctPlaces) - Round(y, PctPlaces));
    } else {
      PercentGrid();
      RoundOnGrid(0, PctPlaces);
    }
  }

  /** An empty frame gives `(0, 0, 0)`. */
  lemma ComputeFairnessEmpty()
    ensures ComputeFairness([]) == Fairness(0.0, 0.0, 0.0)
  {
    PercentGrid();
    RoundOnGrid(0, PctPlaces);
  }

  /**
   * Each percentage lies in [0, 100] and the two add up to at most 100, since
   * no product is both; the gap is exactly the absolute difference of the
   * two percentages and lies in [0, 100].
   */
  lemma ComputeFairnessBounds(frame: seq<Product>)
    ensures 0.0 <= ComputeFairness(frame).menPct <= 100.0
    ensures 0.0 <= ComputeFairness(frame).womenPct <= 100.0
    ensures ComputeFairness(frame).menPct + ComputeFairness(frame).womenPct <= 100.0
    ensures ComputeFairness(frame).gap == Abs(ComputeFairness(frame).womenPct - ComputeFairness(frame).menPct)
    ensures 0.0 <= ComputeFairness(frame).gap <= 100.0
  {
    var w, m := CountCategory(frame, Women), CountCategory(frame, Men);
    CountCategoryBound(frame, Women);
    CountCategoryBound(frame, Men);
    CountTwoCategories(frame, Women, Men);
    PercentBounds(w, |frame|);
    PercentBounds(m, |frame|);
    PercentSum(w, m, |frame|);
    GapOnGrid(w, m, |frame|);
  }

  /** A frame of only "Women" products gives a women share of 100 and a gap of 100. */
  lemma ComputeFairnessAllWomen(frame: seq<Product>)
    requires frame != []
    requires forall i :: 0 <= i < |frame| ==> frame[i].maincateg == Women
    ensures ComputeFairness(frame) == Fairness(0.0, 100.0, 100.0)
  {
    CountCategoryAll(frame, Women);
    CountTwoCategories(frame, Women, Men);
    PercentBounds(|frame|, |frame|);
    PercentBounds(0, |frame|);
    PercentGrid();
    RoundOnGrid(10000, PctPlaces);
  }

  /** Exchanges the labels "Women" and "Men" and leaves every other label alone. */
  function SwapLabel(p: Product): Product
  {
    if p.maincateg == Women then p.(maincateg := Men)
    else if p.maincateg == Men then p.(maincateg := Women)
    else p
  }

  lemma {:induction false} CountSwapped(frame: seq<Product>)
    ensures CountCategory(MapSeq(frame, SwapLabel), Women) == CountCategory(frame, Men)
    ensures CountCategory(MapSeq(frame, SwapLabel), Men) == CountCategory(frame, Women)
  {
    if frame != [] {
      var n := |frame| - 1;
      CountSwapped(frame[..n]);
      assert MapSeq(frame, SwapLabel)[..n] == MapSeq(frame[..n], SwapLabel);
    }
  }

  /** Swapping the two labels swaps the two percentages and keeps the gap. */
  lemma ComputeFairnessSymmetric(frame: seq<Product>)
    ensures ComputeFairness(MapSeq(frame, SwapLabel))
         == Fairness(ComputeFairness(frame).womenPct, ComputeFairness(frame).menPct, ComputeFairness(frame).gap)
  {
    CountSwapped(frame);
    var f := ComputeFairness(frame);
    assert Abs(f.menPct - f.womenPct) == Abs(f.womenPct - f.menPct);
  }

  /** Reordering a frame does not change its fairness. */
  lemma ComputeFairnessPermutation(a: seq<Product>, b: seq<Product>)
    requires multiset(a) == multiset(b)
    ensures ComputeFairness(a) == ComputeFairness(b)
  {
    assert |a| == |multiset(a)| == |multiset(b)| == |b|;
    CountPermutation(a, b, Women);
    CountPermutation(a, b, Men);
  }

  /** The baseline is a stable, non-increasing rearrangement of the input. */
  lemma BaselineProperties(ps: seq<Product>, v: real)
    ensures multiset(Baseline(ps)) == multiset(ps)
    ensures Descending(Baseline(ps), BaselineKey)
    ensures KeyFilter(Baseline(ps), BaselineKey, v) == KeyFilter(ps, BaselineKey, v)
    ensures |Baseline(ps)| == |ps|
  {
    SortDescPermutation(ps, BaselineKey);
    SortDescDescending(ps, BaselineKey);
    SortDescStable(ps, BaselineKey, v);
    SortDescLength(ps, BaselineKey);
  }

  /** Two gaps of `compute_fairness` differ by exactly their parity difference. */
  lemma SpdIsGapDifference(b: seq<Product>, f: seq<Product>)
    ensures Spd(ComputeFairness(b).gap, ComputeFairness(f).gap) == ComputeFairness(b).gap - ComputeFairness(f).gap
  {
    var gb := Abs(ComputeFairness(b).womenPct - ComputeFairness(b).menPct);
    var gf := Abs(ComputeFairness(f).womenPct - ComputeFairness(f).menPct);
    RoundDifference(gb, gf, PctPlaces);
  }

  /**
   * The verdict is "no bias" exactly when the baseline gap is 0, "reduced"
   * exactly when it is not and the fair gap is smaller, and the warning
   * otherwise; the three cases cover every pair of gaps once.
   */
  lemma FinalVerdictCases(bGap: real, fGap: real)
    ensures FinalVerdict(bGap, fGap) == NoBias <==> bGap == 0.0
    ensures FinalVerdict(bGap, fGap) == BiasReduced <==> bGap != 0.0 && fGap < bGap
    ensures FinalVerdict(bGap, fGap) == BiasRemains <==> bGap != 0.0 && fGap >= bGap
  {
  }

  /**
   * A run raises `KeyError` exactly when its frames are empty: for an empty
   * input, or for `k == 0`, which the slider never gives.
   */
  lemma RunKeyError(products: seq<Product>, k: nat)
    ensures Run(products, k) == KeyError <==> products == [] || k == 0
  {
    SortDescLength(products, BaselineKey);
    FairRankingLength(products, k);
  }

  /**
   * A run on a non-empty input reports; its parity difference is the baseline
   * gap minus the fair gap, and the verdict "reduced" means a positive parity
   * difference.
   */
  lemma RunConsistent(products: seq<Product>, k: nat)
    requires products != [] && k > 0
    ensures Run(products, k).Reported?
    ensures Run(products, k).report.spd == Run(products, k).report.baseline.gap - Run(products, k).report.fair.gap
    ensures Run(products, k).report.verdict == BiasReduced
        <==> Run(products, k).report.baseline.gap != 0.0 && Run(products, k).report.spd > 0.0
    ensures Run(products, k).report.verdict == NoBias <==> Run(products, k).report.baseline.gap == 0.0
  {
    RunKeyError(products, k);
    var baselineTop := Take(Baseline(products), k);
    var fairTop := Take(MapSeq(FairTop(products, k), ToProduct), k);
    SpdIsGapDifference(baselineTop, fairTop);
  }

  /**
   * When `k` covers every product of a non-empty input, both frames hold all
   * the products, so the two rankings have the same fairness: the parity
   * difference is 0 and bias, if any, is never reported as reduced.
   */
  lemma RunWholeList(products: seq<Product>, k: nat)
    requires products != [] && k >= |products|
    ensures Run(products, k).Reported?
    ensures Run(products, k).report.baseline == Run(products, k).report.fair
    ensures Run(products, k).report.spd == 0.0
    ensures Run(products, k).report.verdict != BiasReduced
  {
    WholeListFrames(products, k);
    ComputeFairnessPermutation(Take(Baseline(products), k), Take(MapSeq(FairTop(products, k), ToProduct), k));
    RunConsistent(products, k);
  }

  /** When `k` covers every product, both top-`k` frames are rearrangements of the input. */
  lemma WholeListFrames(products: seq<Product>, k: nat)
    requires k >= |products|
    ensures multiset(Take(Baseline(products), k)) == multiset(products)
    ensures multiset(Take(MapSeq(FairTop(products, k), ToProduct), k)) == multiset(products)
  {
    SortDescLength(products, BaselineKey);
    SortDescPermutation(products, BaselineKey);
    FairRankingLength(products, k);
    RankedPermutation(products);
    assert Take(Baseline(products), k) == Baseline(products);
    assert FairTop(products, k) == Ranked(products);
    assert Take(MapSeq(FairTop(products, k), ToProduct), k) == MapSeq(Ranked(products), ToProduct);
  }
}
