/**
 * Three consequences of rounding `fair_score` to three places, shown on small
 * inputs: the rounded score can fall below the baseline score; with a single
 * category the fair order can differ from the baseline order, because
 * rounding makes distinct baseline scores equal and the stable sort then keeps
 * their input order; and for the same reason a rarer category can lose its
 * lead over a commoner one.
 */
module RoundingEffects {
  import opened Sequences
  import opened StableSort
  import opened Rounding
  import opened Products
  import opened FairRanking
  import opened Dashboard

  /** A product whose category is the whole input scores its baseline score before rounding. */
  lemma LoneCategoryScore(ps: seq<Product>, i: nat)
    requires i < |ps|
    requires forall j :: 0 <= j < |ps| ==> ps[j].maincateg == ps[i].maincateg
    ensures ScoredEntry(ps, i).fairScore == Round(ps[i].baselineScore, ScorePlaces)
  {
    FinalScoreBounds(ps, i);
  }

  /**
   * One product with baseline score 0.0004: 0.4 thousandths rounds down to 0,
   * so its `fair_score` is 0.0, below its baseline score.
   */
  lemma RoundedScoreBelowBaseline()
    ensures FairTop([Product("p", Women, 0.0004)], 1)[0].fairScore == 0.0
    ensures FairTop([Product("p", Women, 0.0004)], 1)[0].fairScore
          < FairTop([Product("p", Women, 0.0004)], 1)[0].baselineScore
  {
    var ps := [Product("p", Women, 0.0004)];
    LoneCategoryScore(ps, 0);
    ScoreGrid();
    RoundScaledValue(0.0004, 1000.0);
    assert RoundHalfEvenInt(0.0004 * 1000.0) == 0;
    var s := Scored(ps);
    assert s == [ScoredEntry(ps, 0)];
    assert SortDesc(s, FairKey) == s by {
      assert s[..0] == [];
    }
  }

  /** The two products of the tie example, in input order. */
  function TieProducts(): seq<Product>
  {
    [Product("a", Women, 0.1231), Product("b", Women, 0.1234)]
  }

  /** Both baseline scores round to 0.123. */
  lemma TieScores()
    ensures Scored(TieProducts()) == [
      RankedEntry("a", Women, 0.1231, 0.123),
      RankedEntry("b", Women, 0.1234, 0.123) ]
  {
    var ps := TieProducts();
    LoneCategoryScore(ps, 0);
    LoneCategoryScore(ps, 1);
    ScoreGrid();
    RoundScaledValue(0.1231, 1000.0);
    RoundScaledValue(0.1234, 1000.0);
    assert (0.1231 * 1000.0).Floor == 123;
    assert (0.1234 * 1000.0).Floor == 123;
  }

  /**
   * With a single category and scores of four decimals, the fair ranking
   * keeps "a" first (a tie after rounding) while the baseline puts "b"
   * first: the single-category order agrees with the baseline only for
   * scores of at most three decimals.
   */
  lemma SingleCategoryTieReorders()
    ensures MapSeq(FairTop(TieProducts(), 2), ToProduct) == TieProducts()
    ensures Take(Baseline(TieProducts()), 2) == [TieProducts()[1], TieProducts()[0]]
  {
    var ps := TieProducts();
    TieScores();
    var s := Scored(ps);
    assert s[..1][..0] == [];
    SortDescPrefix(s, 1, FairKey);
    InsertLast([s[0]], s[1], FairKey);
    assert s[..2] == s;
    assert ps[..1][..0] == [];
    SortDescPrefix(ps, 1, BaselineKey);
    assert ps[..2] == ps;
  }

  /**
   * Rounding hides the boost of a rarer category: among 250 products with
   * baseline score 0.0002, one from a category of one scores 0.1994 and one
   * from a category of two scores 0.1986 before rounding, yet both score
   * 0.199, so the stable sort can rank the commoner product first.
   */
  lemma RarerCategoryTie(ps: seq<Product>, i: nat, j: nat)
    requires |ps| == 250 && i < |ps| && j < |ps|
    requires CountCategory(ps, ps[i].maincateg) == 1 && CountCategory(ps, ps[j].maincateg) == 2
    requires ps[i].baselineScore == 0.0002 && ps[j].baselineScore == 0.0002
    ensures FinalScore(ps, i) > FinalScore(ps, j)
    ensures ScoredEntry(ps, i).fairScore == 0.199 && ScoredEntry(ps, j).fairScore == 0.199
  {
    FinalScoreByCount(ps, i);
    FinalScoreByCount(ps, j);
    assert FinalScore(ps, i) == 0.1994;
    assert FinalScore(ps, j) == 0.1986;
    ScoreGrid();
    RoundScaledValue(0.1994, 1000.0);
    RoundScaledValue(0.1986, 1000.0);
    assert (0.1994 * 1000.0).Floor == 199;
    assert (0.1986 * 1000.0).Floor == 198;
  }
}
