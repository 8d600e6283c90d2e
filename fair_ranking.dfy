/**
 * The fairness-aware ranker `fair_rank(products, k)` of src/fair_ranking.py.
 *
 * Every product gets `fair_score = round(baseline_score + 0.2 * (1 - n_c / n), 3)`
 * where `n_c` is the number of products in its category and `n` the number of
 * products; the entries are sorted stably by `fair_score`, highest first, and the
 * first `k` are returned.
 *
 * `FairTop` is the reference definition and the lemmas below state what it
 * guarantees; the method `FairRank` follows the source step by step (counter,
 * appending loop, in-place sort, slice) and is proved to return `FairTop`.
 */
module FairRanking {
  import opened Sequences
  import opened StableSort
  import opened Rounding
  import opened Products

  /** Weight of the fairness boost. */
  const Weight: real := 0.2

  /** Decimal places `fair_score` is rounded to. */
  const ScorePlaces: nat := 3

  /** Scores are rounded to thousandths. */
  lemma ScoreGrid()
    ensures Pow10(ScorePlaces) as real == 1000.0
  {
    assert Pow10(1) == 10 && Pow10(2) == 100 && Pow10(3) == 1000;
  }

  /** `1 - count / total`: 0 for a category that is all of the input, up to 1 for a rare one. */
  function FairnessBoost(count: nat, total: nat): real
    requires total > 0
  {
    1.0 - count as real / total as real
  }

  /** The unrounded score of the `i`-th product. */
  function FinalScore(ps: seq<Product>, i: nat): real
    requires i < |ps|
  {
    var counts := CategoryCounts(ps);
    assert ps[i].maincateg in Categories(ps);
    ps[i].baselineScore + Weight * FairnessBoost(counts[ps[i].maincateg], |ps|)
  }

  /** The record the loop appends for the `i`-th product. */
  function ScoredEntry(ps: seq<Product>, i: nat): RankedEntry
    requires i < |ps|
  {
    RankedEntry(ps[i].title, ps[i].maincateg, ps[i].baselineScore, Round(FinalScore(ps, i), ScorePlaces))
  }

  /** The list `ranked` before sorting: one entry per product, in input order. */
  function Scored(ps: seq<Product>): (r: seq<RankedEntry>)
    ensures MapSeq(r, ToProduct) == ps
  {
    seq(|ps|, i requires 0 <= i < |ps| => ScoredEntry(ps, i))
  }

  function FairKey(e: RankedEntry): real
  {
    e.fairScore
  }

  /** The list `ranked` after `ranked.sort(key=fair_score, reverse=True)`. */
  function Ranked(ps: seq<Product>): seq<RankedEntry>
  {
    SortDesc(Scored(ps), FairKey)
  }

  /** `fair_rank(products, k)` for `k >= 0`. */
  function FairTop(ps: seq<Product>, k: nat): seq<RankedEntry>
  {
    Take(Ranked(ps), k)
  }

  /** `fair_rank`, as the source computes it. */
  method FairRank(products: seq<Product>, k: nat) returns (top: seq<RankedEntry>)
    ensures top == FairTop(products, k)
    ensures |top| == Min(k, |products|)
    ensures Descending(top, FairKey)
  {
    var categoryCount := CategoryCounts(products);
    var total := |products|;
    var ranked: seq<RankedEntry> := [];
    for i := 0 to |products|
      invariant ranked == Scored(products)[..i]
    {
      var p := products[i];
      FinalScoreValue(products, i);
      var categoryRatio := categoryCount[p.maincateg] as real / total as real;
      var fairnessBoost := 1.0 - categoryRatio;
      var finalScore := p.baselineScore + Weight * fairnessBoost;
      ScoredSnoc(products, i);
      ScoredEntryOf(products, i, finalScore);
      ranked := ranked + [RankedEntry(p.title, p.maincateg, p.baselineScore, Round(finalScore, ScorePlaces))];
    }
    var a := new RankedEntry[|ranked|](j requires 0 <= j < |ranked| => ranked[j]);
    assert a[..] == Scored(products);
    InsertionSortDesc(a, FairKey);
    SortedSlice(products, k, a[..]);
    top := a[..Min(k, a.Length)];
  }

  /** Slicing the sorted records, as the last line of `fair_rank` does, gives the output. */
  lemma SortedSlice(ps: seq<Product>, k: nat, sorted: seq<RankedEntry>)
    requires sorted == Ranked(ps)
    ensures sorted[..Min(k, |sorted|)] == FairTop(ps, k)
    ensures |FairTop(ps, k)| == Min(k, |ps|)
    ensures Descending(FairTop(ps, k), FairKey)
  {
    FairRankingDescending(ps, k);
    FairRankingLength(ps, k);
  }

  /** One more iteration of the scoring loop appends the record of the next product. */
  lemma ScoredSnoc(ps: seq<Product>, i: nat)
    requires i < |ps|
    ensures Scored(ps)[..i + 1] == Scored(ps)[..i] + [ScoredEntry(ps, i)]
  {
  }

  /** The record built from the score the loop computes is the `i`-th record. */
  lemma ScoredEntryOf(ps: seq<Product>, i: nat, score: real)
    requires i < |ps| && score == FinalScore(ps, i)
    ensures RankedEntry(ps[i].title, ps[i].maincateg, ps[i].baselineScore, Round(score, ScorePlaces)) == ScoredEntry(ps, i)
  {
  }

  /** The unrounded score, as the loop computes it from the counter. */
  lemma FinalScoreValue(ps: seq<Product>, i: nat)
    requires i < |ps|
    ensures ps[i].maincateg in CategoryCounts(ps)
    ensures FinalScore(ps, i)
         == ps[i].baselineScore + Weight * (1.0 - CategoryCounts(ps)[ps[i].maincateg] as real / |ps| as real)
  {
    assert ps[i].maincateg in Categories(ps);
  }

  lemma RatioBounds(count: nat, total: nat)
    requires 1 <= count <= total
    ensures 0.0 < count as real / total as real <= 1.0
    ensures count as real / total as real == 1.0 <==> count == total
  {
    var r := count as real / total as real;
    assert r * total as real == count as real;
  }

  lemma RatioStrict(c1: nat, c2: nat, total: nat)
    requires c1 < c2 && total > 0
    ensures c1 as real / total as real < c2 as real / total as real
  {
    assert c2 as real / total as real - c1 as real / total as real == (c2 - c1) as real / total as real;
  }

  /** The score in terms of the category's count. */
  lemma FinalScoreByCount(ps: seq<Product>, i: nat)
    requires i < |ps|
    ensures FinalScore(ps, i)
         == ps[i].baselineScore + Weight * FairnessBoost(CountCategory(ps, ps[i].maincateg), |ps|)
  {
    assert ps[i].maincateg in Categories(ps);
  }

  /**
   * The boost is bounded: `baseline <= final < baseline + 0.2`, with equality
   * exactly when every product shares this product's category.
   */
  lemma FinalScoreBounds(ps: seq<Product>, i: nat)
    requires i < |ps|
    ensures ps[i].baselineScore <= FinalScore(ps, i) < ps[i].baselineScore + Weight
    ensures FinalScore(ps, i) == ps[i].baselineScore
        <==> forall j :: 0 <= j < |ps| ==> ps[j].maincateg == ps[i].maincateg
  {
    var c := ps[i].maincateg;
    FinalScoreByCount(ps, i);
    CountCategoryPositive(ps, i);
    CountCategoryBound(ps, c);
    CountCategoryAll(ps, c);
    RatioBounds(CountCategory(ps, c), |ps|);
  }

  /**
   * Of two products with the same baseline score, the one from the strictly
   * smaller category gets the strictly larger score.
   */
  lemma RarerCategoryScoresHigher(ps: seq<Product>, i: nat, j: nat)
    requires i < |ps| && j < |ps|
    requires CountCategory(ps, ps[i].maincateg) < CountCategory(ps, ps[j].maincateg)
    requires ps[i].baselineScore == ps[j].baselineScore
    ensures FinalScore(ps, i) > FinalScore(ps, j)
  {
    FinalScoreByCount(ps, i);
    FinalScoreByCount(ps, j);
    RatioStrict(CountCategory(ps, ps[i].maincateg), CountCategory(ps, ps[j].maincateg), |ps|);
  }

  /**
   * After rounding, the product from the strictly smaller category still
   * scores at least as high; rounding can make the two scores equal.
   */
  lemma RarerCategoryFairScoreAtLeast(ps: seq<Product>, i: nat, j: nat)
    requires i < |ps| && j < |ps|
    requires CountCategory(ps, ps[i].maincateg) < CountCategory(ps, ps[j].maincateg)
    requires ps[i].baselineScore == ps[j].baselineScore
    ensures ScoredEntry(ps, i).fairScore >= ScoredEntry(ps, j).fairScore
  {
    RarerCategoryScoresHigher(ps, i, j);
    RoundMonotone(FinalScore(ps, j), FinalScore(ps, i), ScorePlaces);
  }

  /**
   * A product's score depends only on the product itself and the category
   * distribution of the whole input: reordering the input leaves it unchanged.
   */
  lemma FinalScoreDependsOnDistribution(ps: seq<Product>, qs: seq<Product>, i: nat, j: nat)
    requires multiset(ps) == multiset(qs)
    requires i < |ps| && j < |qs| && ps[i] == qs[j]
    ensures FinalScore(ps, i) == FinalScore(qs, j)
  {
    assert |ps| == |multiset(ps)| == |multiset(qs)| == |qs|;
    FinalScoreByCount(ps, i);
    FinalScoreByCount(qs, j);
    CountPermutation(ps, qs, ps[i].maincateg);
  }

  /** The output has `min(k, |ps|)` entries; an empty input gives an empty output. */
  lemma FairRankingLength(ps: seq<Product>, k: nat)
    ensures |FairTop(ps, k)| == Min(k, |ps|)
    ensures ps == [] ==> FairTop(ps, k) == []
  {
    SortDescLength(Scored(ps), FairKey);
  }

  /** The output is non-increasing in `fair_score`. */
  lemma FairRankingDescending(ps: seq<Product>, k: nat)
    ensures Descending(FairTop(ps, k), FairKey)
  {
    SortDescDescending(Scored(ps), FairKey);
  }

  /**
   * Stability: the output is a prefix of the sorted list in which, for every
   * score value, the entries with that score keep their input order.
   */
  lemma FairRankingStable(ps: seq<Product>, k: nat, v: real)
    ensures FairTop(ps, k) <= Ranked(ps)
    ensures KeyFilter(Ranked(ps), FairKey, v) == KeyFilter(Scored(ps), FairKey, v)
  {
    SortDescStable(Scored(ps), FairKey, v);
  }

  /** The sorted list holds the per-product records, and so the products, each exactly once. */
  lemma RankedPermutation(ps: seq<Product>)
    ensures multiset(Ranked(ps)) == multiset(Scored(ps))
    ensures multiset(MapSeq(Ranked(ps), ToProduct)) == multiset(ps)
  {
    SortDescPermutation(Scored(ps), FairKey);
    MapPermutation(Ranked(ps), Scored(ps), ToProduct);
  }

  /** The index of the input product whose record an output entry is. */
  lemma EntryOrigin(ps: seq<Product>, k: nat, e: RankedEntry) returns (i: nat)
    requires e in FairTop(ps, k)
    ensures i < |ps| && e == ScoredEntry(ps, i)
  {
    SortDescPermutation(Scored(ps), FairKey);
    assert e in multiset(Ranked(ps));
    assert e in multiset(Scored(ps));
    i :| 0 <= i < |ps| && Scored(ps)[i] == e;
  }

  /** Every output entry is the record of some input product and copies its fields. */
  lemma FairRankingFromInput(ps: seq<Product>, k: nat, e: RankedEntry)
    requires e in FairTop(ps, k)
    ensures exists i :: 0 <= i < |ps| && e == ScoredEntry(ps, i)
    ensures ToProduct(e) in ps
  {
    var i := EntryOrigin(ps, k, e);
    assert e == Scored(ps)[i];
    assert MapSeq(Scored(ps), ToProduct)[i] == ps[i];
  }

  /** The rounded score of a record lies between the rounded baseline score and the rounded baseline score plus the weight. */
  lemma ScoredEntryBounds(ps: seq<Product>, i: nat)
    requires i < |ps|
    ensures Round(ps[i].baselineScore, ScorePlaces) <= ScoredEntry(ps, i).fairScore
         <= Round(ps[i].baselineScore + Weight, ScorePlaces)
  {
    FinalScoreBounds(ps, i);
    RoundMonotone(ps[i].baselineScore, FinalScore(ps, i), ScorePlaces);
    RoundMonotone(FinalScore(ps, i), ps[i].baselineScore + Weight, ScorePlaces);
  }

  /**
   * Every output score lies between the rounded baseline score and the rounded
   * baseline score plus the full weight.
   */
  lemma FairRankingScoreBounds(ps: seq<Product>, k: nat, e: RankedEntry)
    requires e in FairTop(ps, k)
    ensures Round(e.baselineScore, ScorePlaces) <= e.fairScore <= Round(e.baselineScore + Weight, ScorePlaces)
  {
    var i := EntryOrigin(ps, k, e);
    EntryBounds(ps, i, e);
  }

  /** `ScoredEntryBounds`, stated for an entry known to be the `i`-th record. */
  lemma EntryBounds(ps: seq<Product>, i: nat, e: RankedEntry)
    requires i < |ps| && e == ScoredEntry(ps, i)
    ensures Round(e.baselineScore, ScorePlaces) <= e.fairScore <= Round(e.baselineScore + Weight, ScorePlaces)
  {
    ScoredEntryBounds(ps, i);
  }

  /** Scores do not depend on `k`: a shorter ranking is a prefix of a longer one. */
  lemma FairRankingPrefix(ps: seq<Product>, k1: nat, k2: nat)
    requires k1 <= k2
    ensures FairTop(ps, k1) <= FairTop(ps, k2)
  {
  }

  lemma SingleCategoryScore(ps: seq<Product>, i: nat)
    requires i < |ps|
    requires forall j :: 0 <= j < |ps| ==> ps[j].maincateg == ps[i].maincateg
    requires Round(ps[i].baselineScore, ScorePlaces) == ps[i].baselineScore
    ensures ScoredEntry(ps, i).fairScore == ps[i].baselineScore
  {
    FinalScoreBounds(ps, i);
  }

  /** With a single category every record's score is its product's baseline score. */
  lemma SingleCategoryKeysAgree(ps: seq<Product>)
    requires forall i :: 0 <= i < |ps| ==> ps[i].maincateg == ps[0].maincateg
    requires forall i :: 0 <= i < |ps| ==> Round(ps[i].baselineScore, ScorePlaces) == ps[i].baselineScore
    ensures forall i :: 0 <= i < |Scored(ps)| ==> BaselineKey(ToProduct(Scored(ps)[i])) == FairKey(Scored(ps)[i])
  {
    var s := Scored(ps);
    forall i | 0 <= i < |s| ensures BaselineKey(ToProduct(s[i])) == FairKey(s[i]) {
      SingleCategoryScore(ps, i);
    }
  }

  /**
   * With a single category the boost vanishes; when the baseline scores already
   * have at most three decimals, the ranking (as products) is the stable
   * descending order by baseline score, cut to `k`.
   */
  lemma SingleCategoryKeepsBaselineOrder(ps: seq<Product>, k: nat)
    requires forall i :: 0 <= i < |ps| ==> ps[i].maincateg == ps[0].maincateg
    requires forall i :: 0 <= i < |ps| ==> Round(ps[i].baselineScore, ScorePlaces) == ps[i].baselineScore
    ensures MapSeq(FairTop(ps, k), ToProduct) == Take(SortDesc(ps, BaselineKey), k)
  {
    SingleCategoryKeysAgree(ps);
    SortDescMap(Scored(ps), FairKey, ToProduct, BaselineKey);
    MapTake(Ranked(ps), k, ToProduct);
  }
}
