/**
 * The dashboard's default input (four shoes, two per label) run with the
 * slider's default `k = 3`: the scores, both rankings and the report, worked
 * out exactly.
 */
module DefaultScenario {
  import opened Sequences
  import opened StableSort
  import opened Rounding
  import opened Products
  import opened FairRanking
  import opened Dashboard

  /** The products of `default_json`. */
  function DefaultProducts(): seq<Product>
  {
    [ Product("Women Casual Shoes", Women, 0.92),
      Product("Men Formal Shoes", Men, 0.95),
      Product("Women Sports Shoes", Women, 0.85),
      Product("Men Running Shoes", Men, 0.80) ]
  }

  /** Two products per label. */
  lemma DefaultCounts()
    ensures CountCategory(DefaultProducts(), Women) == 2
    ensures CountCategory(DefaultProducts(), Men) == 2
  {
    var ps := DefaultProducts();
    assert ps[..1][..0] == [];
    assert ps[..2][..1] == ps[..1];
    assert ps[..3][..2] == ps[..2];
    assert ps[..4][..3] == ps[..3] && ps[..4] == ps;
    assert CountCategory(ps[..1], Women) == 1 && CountCategory(ps[..1], Men) == 0;
    assert CountCategory(ps[..2], Women) == 1 && CountCategory(ps[..2], Men) == 1;
    assert CountCategory(ps[..3], Women) == 2 && CountCategory(ps[..3], Men) == 1;
  }

  /** With two products per label over four, every boost is one half, so every score gains 0.1. */
  lemma DefaultFinalScore(i: nat)
    requires i < 4
    ensures FinalScore(DefaultProducts(), i) == DefaultProducts()[i].baselineScore + 0.1
  {
    DefaultCounts();
    FinalScoreByCount(DefaultProducts(), i);
  }

  /** A multiple of 0.001 is its own rounded score. */
  lemma ScoreOnGrid(n: int)
    ensures Round(n as real / 1000.0, ScorePlaces) == n as real / 1000.0
  {
    ScoreGrid();
    RoundOnGrid(n, ScorePlaces);
  }

  /** The `i`-th default record scores its baseline score plus 0.1, here `n` thousandths. */
  lemma DefaultEntryScore(i: nat, n: int)
    requires i < 4 && DefaultProducts()[i].baselineScore + 0.1 == n as real / 1000.0
    ensures ScoredEntry(DefaultProducts(), i).fairScore == n as real / 1000.0
  {
    DefaultFinalScore(i);
    ScoreOnGrid(n);
  }

  /** The records `fair_rank` builds before sorting. */
  lemma DefaultScores()
    ensures Scored(DefaultProducts()) == [
      RankedEntry("Women Casual Shoes", Women, 0.92, 1.02),
      RankedEntry("Men Formal Shoes", Men, 0.95, 1.05),
      RankedEntry("Women Sports Shoes", Women, 0.85, 0.95),
      RankedEntry("Men Running Shoes", Men, 0.80, 0.90) ]
  {
    DefaultEntryScore(0, 1020);
    DefaultEntryScore(1, 1050);
    DefaultEntryScore(2, 950);
    DefaultEntryScore(3, 900);
  }

  /** Sorting the default records moves the second one to the front and keeps the others in order. */
  lemma DefaultSortOrder()
    ensures Ranked(DefaultProducts())
         == [Scored(DefaultProducts())[1], Scored(DefaultProducts())[0], Scored(DefaultProducts())[2], Scored(DefaultProducts())[3]]
  {
    DefaultScores();
    var s := Scored(DefaultProducts());
    assert s[..1][..0] == [];
    SortDescPrefix(s, 1, FairKey);
    assert SortDesc(s[..2], FairKey) == [s[1], s[0]];
    SortDescPrefix(s, 2, FairKey);
    InsertLast([s[1], s[0]], s[2], FairKey);
    SortDescPrefix(s, 3, FairKey);
    InsertLast([s[1], s[0], s[2]], s[3], FairKey);
    assert s[..4] == s;
  }

  /** `fair_rank(default, 3)`: the men's formal shoes first, then both women's products. */
  lemma DefaultRanking()
    ensures Ranked(DefaultProducts()) == [
      RankedEntry("Men Formal Shoes", Men, 0.95, 1.05),
      RankedEntry("Women Casual Shoes", Women, 0.92, 1.02),
      RankedEntry("Women Sports Shoes", Women, 0.85, 0.95),
      RankedEntry("Men Running Shoes", Men, 0.80, 0.90) ]
    ensures FairTop(DefaultProducts(), 3) == [
      RankedEntry("Men Formal Shoes", Men, 0.95, 1.05),
      RankedEntry("Women Casual Shoes", Women, 0.92, 1.02),
      RankedEntry("Women Sports Shoes", Women, 0.85, 0.95) ]
  {
    DefaultScores();
    DefaultSortOrder();
  }

  /** The baseline order of the default input. */
  lemma DefaultBaseline()
    ensures Baseline(DefaultProducts()) == [DefaultProducts()[1], DefaultProducts()[0], DefaultProducts()[2], DefaultProducts()[3]]
  {
    var s := DefaultProducts();
    assert s[..1][..0] == [];
    SortDescPrefix(s, 1, BaselineKey);
    assert SortDesc(s[..2], BaselineKey) == [s[1], s[0]];
    SortDescPrefix(s, 2, BaselineKey);
    InsertLast([s[1], s[0]], s[2], BaselineKey);
    SortDescPrefix(s, 3, BaselineKey);
    InsertLast([s[1], s[0], s[2]], s[3], BaselineKey);
    assert s[..4] == s;
  }

  /** One and two products out of three, as rounded percentages. */
  lemma PercentOfThree()
    ensures Percent(1, 3) == 33.33 && Percent(2, 3) == 66.67
  {
    PercentGrid();
    var x, y := 1.0 / 3.0 * 100.0, 2.0 / 3.0 * 100.0;
    RoundScaledValue(x, 100.0);
    RoundScaledValue(y, 100.0);
    assert x * 100.0 == 3333.0 + 1.0 / 3.0;
    assert y * 100.0 == 6666.0 + 2.0 / 3.0;
    assert (x * 100.0).Floor == 3333;
    assert (y * 100.0).Floor == 6666;
    assert RoundHalfEvenInt(x * 100.0) == 3333;
    assert RoundHalfEvenInt(y * 100.0) == 6667;
  }

  /** `compute_fairness` of a frame of one men's and two women's products. */
  lemma DefaultTopFairness()
    ensures ComputeFairness([DefaultProducts()[1], DefaultProducts()[0], DefaultProducts()[2]])
         == Fairness(33.33, 66.67, 33.34)
  {
    var f := [DefaultProducts()[1], DefaultProducts()[0], DefaultProducts()[2]];
    assert f[..1][..0] == [];
    assert f[..2][..1] == f[..1];
    assert f[..3][..2] == f[..2] && f[..3] == f;
    assert CountCategory(f[..1], Women) == 0 && CountCategory(f[..1], Men) == 1;
    assert CountCategory(f[..2], Women) == 1 && CountCategory(f[..2], Men) == 1;
    assert CountCategory(f, Women) == 2 && CountCategory(f, Men) == 1;
    PercentOfThree();
    PercentGrid();
    RoundOnGrid(3334, PctPlaces);
  }

  /** Both top-3 frames of the default run hold the same three products in the same order. */
  lemma DefaultTops()
    ensures Take(Baseline(DefaultProducts()), 3) == [DefaultProducts()[1], DefaultProducts()[0], DefaultProducts()[2]]
    ensures Take(MapSeq(FairTop(DefaultProducts(), 3), ToProduct), 3)
         == [DefaultProducts()[1], DefaultProducts()[0], DefaultProducts()[2]]
  {
    DefaultBaseline();
    DefaultRanking();
  }

  /**
   * The default run: both gaps are 33.34, the parity difference is 0 and the
   * verdict is the warning, although the fair ranking changed the order.
   */
  lemma DefaultReport()
    ensures Run(DefaultProducts(), 3)
         == Reported(Report(Fairness(33.33, 66.67, 33.34), Fairness(33.33, 66.67, 33.34), 0.0, BiasRemains))
  {
    DefaultTops();
    DefaultTopFairness();
    PercentGrid();
    RoundOnGrid(0, PctPlaces);
  }
}
