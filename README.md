# FairCart AI ranking and fairness metrics, modelled in Dafny

FairCart AI re-ranks e-commerce products so that products of under-represented
categories move up. `fair_rank(products, k)` counts the products in each
`maincateg` and gives every product this score:

    fair_score = round(baseline_score + 0.2 * (1 - count / total), 3)

It then sorts the products stably by that score, highest first, and returns the
first `k`. The metrics module measures the share of "Women" products in a list
or in its top `k`. It also computes the statistical parity difference and the
disparate impact of two such shares. The Streamlit dashboard runs four steps:

1. It sorts the input by baseline score to get the baseline ranking.
2. It computes the men's and women's percentages and their gap for the top `k`
   of each ranking (`compute_fairness`).
3. It computes the parity difference of the two gaps.
4. It picks one of three verdicts.

The model, module by module:

- `Sequences`: mapping, slicing `s[:k]` for `k >= 0`, and how mapping commutes
  with concatenation, slicing and permutation.
- `StableSort`: the stable descending sort behind `list.sort(key=…, reverse=True)`
  and `sorted(…, reverse=True)`.
  - `SortDesc` is the reference definition. It inserts each element behind
    every element whose key is at least its own.
  - Lemmas prove `SortDesc` sorted, a permutation and stable. Stability is
    stated as: "for every key value, the entries with that key keep their
    input order".
  - `InsertionSortDesc` sorts an array in place. It is proved to leave exactly
    `SortDesc` of the old contents.
- `Rounding`: Python's `round(x, n)` on the exact value of `x`. It rounds to
  the nearest multiple of 10^-n, and a tie goes to the even multiple.
- `Products`: the product and ranked-entry records, and per-category counting.
  `CategoryCounts` models the `Counter`: it has one key per category that
  occurs, and a missing category reads as 0.
- `FairRanking`: `fair_rank`.
  - `FairRank` follows the code: it builds the counter, runs the appending
    loop, copies the list into an array, sorts it in place and slices it.
  - `FairRank` is proved equal to the reference function `FairTop`.
  - The properties of the ranking are proved about `FairTop`.
- `Metrics`: `women_representation`, `compare_fairness` with its inner
  `women_ratio`, `statistical_parity_difference` and `disparate_impact`.
- `Dashboard`, the non-presentation logic of `streamlit_app.py`:
  - `compute_fairness`;
  - the baseline `sorted(...)`;
  - `spd = round(b_gap - f_gap, 2)`;
  - the final verdict;
  - `Run`, which puts these together for one press of the run button; it
    ends in `KeyError` when a top-`k` frame is empty, as the program does.

  A frame is modelled as the sequence of its rows' products.
- `DefaultScenario`: the dashboard's default input, run with the slider's
  default `k = 3`, worked out exactly.
- `RoundingEffects`: three consequences of rounding `fair_score`, each shown on
  a small input.

Scores are exact reals.

Where the intended behaviour of the program and its code differ, the model follows the code:

- **The "Women" label is hard-coded.** The metrics and `compute_fairness`
  compare against the literal labels "Women" and "Men". The protected category
  is meant to be a choice of the caller, but it is not a parameter.
- **Negative `k` is not empty.** A negative `k` is meant to give an empty
  ranking, but `ranked[:k]` drops entries from the end instead. The model takes `k >= 0` (see
  "Left out").
- **Records are not validated.** A malformed record is meant to be reported
  as invalid, but a missing field or a non-numeric score raises a Python
  exception instead.
- **The rounded score can be below the baseline.** The boost is meant never
  to lower a product, that is `fair_score >= baseline_score`. Because of the
  rounding, this does not hold for every input:
  - `RoundedScoreBelowBaseline` shows a lone product with baseline 0.0004
    scoring 0.0. The float nearest 0.0004 is far from a rounding tie, so the
    program computes the same.
  - The bound does hold for the unrounded score (`FinalScoreBounds`).
  - For the rounded score, the bound holds against the rounded baseline
    (`FairRankingScoreBounds`).
- **One category does not always keep the baseline order.** Take a single
  category with scores of four decimals:
  - Two distinct scores can round to the same value, and the stable sort then
    keeps their input order, where the baseline orders them by score
    (`SingleCategoryTieReorders`).
  - `SingleCategoryKeepsBaselineOrder` proves that the fair order equals the
    baseline order when every baseline score has at most three decimals.
- **A rarer category does not always rank higher.** Of two products with the
  same baseline score, the one from the smaller category is meant to get the
  larger `fair_score`.
  - This holds for the unrounded score (`RarerCategoryScoresHigher`).
  - After rounding, only "at least as large" holds
    (`RarerCategoryFairScoreAtLeast`).
  - `RarerCategoryTie` shows the difference. Take 250 products with baseline
    0.0002 and categories of one and of two products. Before rounding they
    score 0.1994 and 0.1986; both round to 0.199. The stable sort then keeps
    them in input order, so the commoner product can rank first. Neither float
    is near a rounding tie, so the program computes the same.

The default run, worked out (`DefaultScenario`):

- The default input has two "Men" and two "Women" products (`DefaultCounts`),
  so every product gets the same boost of 0.1 (`DefaultFinalScore`).
- The fair order therefore equals the baseline order: Men Formal, Women
  Casual, Women Sports, Men Running (`DefaultBaseline`, `DefaultRanking`).
- Both top-3 frames hold the same products, so both gaps are 33.34 and the
  parity difference is 0 (`DefaultReport`).
- With equal non-zero gaps, `f_gap < b_gap` is false, so the verdict is the
  warning branch at streamlit_app.py:169-172.

## Model

| member | source | states |
|---|---|---|
| FairRanking.FinalScore | src/fair_ranking.py:11-14 | the unrounded score `baseline + 0.2 * (1 - counter[category] / total)`, with the boost of line 12 as `FairnessBoost`; its properties are `FinalScoreBounds`, `RarerCategoryScoresHigher` and `FinalScoreDependsOnDistribution` |
| FairRanking.Scored | src/fair_ranking.py:9-21 | the list `ranked` before sorting, one record `ScoredEntry` (the dict of lines 16-21) per product in input order; mapped back to products it is exactly the input |
| FairRanking.FairTop | src/fair_ranking.py:5-24 | the reference definition of `fair_rank(products, k)`: the records sorted stably by `fair_score`, highest first (`Ranked`, the list after line 23), cut to `k`; `FairRank` is proved to return it |
| FairRanking.FairRank | src/fair_ranking.py:5-24 | the counter, the scoring loop, the in-place stable sort and the slice return exactly `FairTop(products, k)`: `min(k, n)` entries, non-increasing in `fair_score` |
| FairRanking.FinalScoreByCount | src/fair_ranking.py:6-14 | the counter entry it reads is the number of products in that category |
| FairRanking.FinalScoreBounds | src/fair_ranking.py:11-14 | `baseline <= final < baseline + 0.2`; equality holds exactly when every product shares this product's category |
| FairRanking.RarerCategoryScoresHigher | src/fair_ranking.py:11-14 | with equal baseline scores, the product of the strictly smaller category scores strictly higher before rounding |
| FairRanking.RarerCategoryFairScoreAtLeast | src/fair_ranking.py:11-20 | with equal baseline scores, the product of the strictly smaller category gets a rounded `fair_score` at least as large |
| FairRanking.FinalScoreDependsOnDistribution | src/fair_ranking.py:6-14 | a product's score depends only on the product and the multiset of the input, not on the input order |
| FairRanking.RatioBounds | src/fair_ranking.py:11 | a category ratio lies in (0, 1], and it is 1 exactly when the category is the whole input |
| FairRanking.FairRankingLength | src/fair_ranking.py:7-24 | the output has `min(k, n)` entries; an empty input gives an empty output |
| FairRanking.FairRankingDescending | src/fair_ranking.py:23-24 | the output is non-increasing in `fair_score` |
| FairRanking.FairRankingStable | src/fair_ranking.py:23-24 | the output is a prefix of the sorted list, and for every score value, the entries with that score keep their input order |
| FairRanking.RankedPermutation | src/fair_ranking.py:9-23 | the sorted list `Ranked` is a permutation of the per-product records, and as products, of the input |
| FairRanking.FairRankingFromInput | src/fair_ranking.py:10-24 | every output entry is the record of some input product and copies its title, category and baseline score |
| FairRanking.ScoredEntryBounds | src/fair_ranking.py:14-20 | a record's rounded score lies between the rounded baseline and the rounded baseline plus 0.2 |
| FairRanking.FairRankingScoreBounds | src/fair_ranking.py:14-24 | every output score lies between the rounded baseline and the rounded baseline plus 0.2 |
| FairRanking.FairRankingPrefix | src/fair_ranking.py:6-24 | scores do not depend on `k`: the output for `k1 <= k2` is a prefix of the output for `k2` |
| FairRanking.SingleCategoryScore | src/fair_ranking.py:11-20 | when every product is in one category, a score with at most three decimals is kept unchanged |
| FairRanking.SingleCategoryKeysAgree | src/fair_ranking.py:11-20 | with one category and three-decimal scores, each record's sort key is its baseline score |
| FairRanking.SingleCategoryKeepsBaselineOrder | src/fair_ranking.py:11-24 | with one category and three-decimal scores, the output (as products) is the stable baseline-descending order cut to `k` |
| StableSort.SortDesc | src/fair_ranking.py:23 | the stable descending sort by key; its properties are `SortDescDescending`, `SortDescPermutation` and `SortDescStable` |
| StableSort.InsertionSortDesc | src/fair_ranking.py:23 | sorting the array in place leaves exactly `SortDesc` of its old contents |
| StableSort.InsertStep | src/fair_ranking.py:23 | one insertion step turns a sorted prefix plus one element into the insertion of that element, and leaves the rest of the array alone |
| StableSort.InsertShifted | src/fair_ranking.py:23 | the array the shifting loop leaves behind is the insertion into the sorted prefix |
| StableSort.SortDescDescending | src/fair_ranking.py:23 | the sort's output is non-increasing in the key |
| StableSort.InsertDescending | src/fair_ranking.py:23 | inserting into a sorted sequence keeps it sorted |
| StableSort.SortDescPermutation | src/fair_ranking.py:23 | the sort's output is a permutation of its input |
| StableSort.InsertPermutation | src/fair_ranking.py:23 | insertion adds exactly the inserted element |
| StableSort.SortDescLength | src/fair_ranking.py:23 | sorting keeps the length |
| StableSort.SortDescStable | src/fair_ranking.py:23 | stability: for each key value, the entries with that key appear in input order |
| StableSort.InsertKeyFilter | src/fair_ranking.py:23 | insertion into a sorted sequence appends the element after the elements with equal key |
| StableSort.SortDescMap | src/fair_ranking.py:23 | sorting commutes with a mapping that keeps every key |
| StableSort.InsertAt | src/fair_ranking.py:23 | the element lands behind all keys at least its own and before the first smaller one |
| Rounding.Round | src/fair_ranking.py:20 | Python's `round(x, n)` on the exact value: half-even rounding to a multiple of 10^-n; its properties are `RoundMonotone`, `RoundOnGrid` and `RoundError` |
| Rounding.RoundHalfEvenInt | src/fair_ranking.py:20 | the nearest integer within one half, and a tie goes to the even neighbour |
| Rounding.RoundMonotone | src/fair_ranking.py:20 | rounding never reverses an order |
| Rounding.RoundOnGrid | src/fair_ranking.py:20 | a multiple of 10^-n is its own rounding |
| Rounding.RoundError | src/fair_ranking.py:20 | rounding moves a value by at most half a unit of the last kept place |
| Rounding.RoundDifference | streamlit_app.py:116 | the difference of two rounded values is already rounded |
| Products.CountCategory | streamlit_app.py:45-46 | the number of products with a label, as the label filters and sums count them; its properties are `CountCategoryBound`, `CountCategoryAll` and `CountPermutation` |
| Products.CategoryCounts | src/fair_ranking.py:6 | the counter has exactly the categories that occur as keys and maps each to its number of products; a missing category reads as 0 |
| Products.CountCategoryBound | src/metrics.py:2 | a category count is at most the length |
| Products.CountTwoCategories | streamlit_app.py:45-46 | the counts of two different labels add up to at most the length |
| Products.CountCategoryPositive | src/fair_ranking.py:6 | a category that occurs is counted at least once |
| Products.CountCategoryAll | src/fair_ranking.py:6 | a count equals the length exactly when every product has that category |
| Products.CountPermutation | src/fair_ranking.py:6 | reordering the products changes no count |
| Metrics.WomenRepresentation | src/metrics.py:1-3 | `women_representation`: the share of "Women" products, 0 for an empty list; see `WomenRepresentationBounds` |
| Metrics.WomenRatio | src/metrics.py:7-11 | the inner `women_ratio`: the share among the first `k`, 0 for an empty prefix; see `WomenRatioIsPrefixShare` |
| Metrics.CompareFairness | src/metrics.py:6-16 | `compare_fairness`: the two prefix shares; see `CompareFairnessBounds` and `CompareFairnessPrefixOnly` |
| Metrics.StatisticalParityDifference | src/metrics.py:19-20 | `fair_wr - baseline_wr`; see `StatisticalParityDifferenceProperties` |
| Metrics.DisparateImpact | src/metrics.py:23-26 | `fair_wr / baseline_wr`, 0 for a zero baseline; see `DisparateImpactProperties` |
| Metrics.WomenRepresentationBounds | src/metrics.py:1-3 | the share lies in [0, 1] and is 0 for an empty list; for a non-empty list it is 1 exactly when all products are "Women", and 0 exactly when none is |
| Metrics.WomenRepresentationPositive | src/metrics.py:1-3 | one "Women" product makes the share positive |
| Metrics.WomenRepresentationPermutation | src/metrics.py:1-3 | the share does not depend on the order |
| Metrics.WomenRatioIsPrefixShare | src/metrics.py:7-11 | `women_ratio` is the share of the first `k` entries; it lies in [0, 1] and is 0 for `k == 0` or an empty list |
| Metrics.WomenRatioWholeList | src/metrics.py:7-11 | for `k` at least the length, `women_ratio` equals `women_representation` of the whole list |
| Metrics.CompareFairnessPrefixOnly | src/metrics.py:6-16 | only the first `k` entries of each list matter |
| Metrics.CompareFairnessBounds | src/metrics.py:6-16 | both reported shares lie in [0, 1], and both are 0 for `k == 0` |
| Metrics.StatisticalParityDifferenceProperties | src/metrics.py:19-20 | antisymmetric; zero exactly when the shares agree; positive exactly when the fair share is larger; baseline plus difference is the fair share |
| Metrics.DisparateImpactProperties | src/metrics.py:23-26 | 0 for a zero baseline; otherwise the ratio, with `di * b == f` and `di(b, b) == 1`; for a positive baseline, above 1 exactly when the parity difference is positive |
| Metrics.DisparateImpactNonNegative | src/metrics.py:23-26 | never negative for non-negative shares |
| Dashboard.Percent | streamlit_app.py:48-49 | a count as a percentage of the total, rounded to two places, 0 for a zero total; see `PercentBounds` and `PercentSum` |
| Dashboard.ComputeFairness | streamlit_app.py:43-52 | `compute_fairness`: the men and women percentages and their rounded gap; see `ComputeFairnessBounds` |
| Dashboard.Baseline | streamlit_app.py:84-88 | the baseline ranking, all products sorted stably by baseline score; see `BaselineProperties` |
| Dashboard.Spd | streamlit_app.py:116 | `round(b_gap - f_gap, 2)`; see `SpdIsGapDifference` |
| Dashboard.FinalVerdict | streamlit_app.py:161-172 | the three-way verdict on the two gaps; see `FinalVerdictCases` |
| Dashboard.Run | streamlit_app.py:84-172 | one press of the run button: `KeyError` on an empty frame, otherwise both fairness triples, `spd` and the verdict; see `RunKeyError`, `RunConsistent` and `RunWholeList` |
| Dashboard.ComputeFairnessEmpty | streamlit_app.py:43-52 | a frame with the "maincateg" column and no rows gives `(0, 0, 0)` |
| Dashboard.ComputeFairnessBounds | streamlit_app.py:43-52 | both percentages lie in [0, 100] and add up to at most 100, rounding included; the gap is exactly `abs(women_pct - men_pct)` and lies in [0, 100] |
| Dashboard.ComputeFairnessAllWomen | streamlit_app.py:43-52 | a frame of only "Women" products gives `(0, 100, 100)` |
| Dashboard.ComputeFairnessSymmetric | streamlit_app.py:43-52 | swapping the two labels swaps the percentages and keeps the gap |
| Dashboard.ComputeFairnessPermutation | streamlit_app.py:43-52 | reordering a frame does not change its fairness |
| Dashboard.PercentBounds | streamlit_app.py:48-49 | a rounded percentage of a count lies in [0, 100]; it is 0 for no products and 100 for all |
| Dashboard.PercentSum | streamlit_app.py:44-49 | the rounded percentages of two disjoint counts add up to at most 100 |
| Dashboard.RoundHalfEvenIntSum | streamlit_app.py:48-49 | two half-even roundings of values summing to at most an even integer sum to at most that integer |
| Dashboard.GapOnGrid | streamlit_app.py:50 | rounding the gap leaves the exact absolute difference |
| Dashboard.BaselineProperties | streamlit_app.py:84-88 | the baseline is a permutation of the input, non-increasing in `baseline_score`, stable, and of the same length |
| Dashboard.SpdIsGapDifference | streamlit_app.py:116 | for two gaps of `compute_fairness`, `spd` is exactly `b_gap - f_gap` |
| Dashboard.FinalVerdictCases | streamlit_app.py:161-172 | "no bias" exactly when `b_gap == 0`; "reduced" exactly when `b_gap != 0` and `f_gap < b_gap`; the warning otherwise; the cases are exhaustive and exclusive |
| Dashboard.RunKeyError | streamlit_app.py:84-113 | a run raises `KeyError` exactly when the input is empty or `k == 0`, since `compute_fairness` then gets a frame without a "maincateg" column |
| Dashboard.RunConsistent | streamlit_app.py:84-172 | a run on a non-empty input with `k > 0` reports; `spd` is the baseline gap minus the fair gap, "reduced" means a non-zero baseline gap and a positive `spd`, and "no bias" means a zero baseline gap |
| Dashboard.RunWholeList | streamlit_app.py:84-116 | when `k` covers every product of a non-empty input, the run reports, both frames have the same fairness, `spd` is 0 and the verdict is never "reduced" |
| DefaultScenario.DefaultCounts | streamlit_app.py:55-62 | the default input has two products per label |
| DefaultScenario.DefaultFinalScore | src/fair_ranking.py:11-14 | on the default input, every unrounded score is the baseline plus 0.1 |
| DefaultScenario.DefaultScores | src/fair_ranking.py:9-21 | the default records score 1.02, 1.05, 0.95 and 0.90 |
| DefaultScenario.DefaultSortOrder | src/fair_ranking.py:23 | sorting the default records moves the second one to the front |
| DefaultScenario.DefaultRanking | streamlit_app.py:90 | `fair_rank(default, 3)` is `[Men 1.05, Women 1.02, Women 0.95]` |
| DefaultScenario.DefaultBaseline | streamlit_app.py:84-88 | the default baseline order is 0.95, 0.92, 0.85, 0.80 |
| DefaultScenario.PercentOfThree | streamlit_app.py:48-49 | one and two out of three round to 33.33 and 66.67 |
| DefaultScenario.DefaultTopFairness | streamlit_app.py:43-52 | one men's and two women's products give `(33.33, 66.67, 33.34)` |
| DefaultScenario.DefaultTops | streamlit_app.py:84-93 | both default top-3 frames hold the same three products |
| DefaultScenario.DefaultReport | streamlit_app.py:113-172 | the default run reports gaps of 33.34, `spd` 0 and the warning verdict |
| RoundingEffects.LoneCategoryScore | src/fair_ranking.py:11-20 | a product whose category is the whole input scores its rounded baseline |
| RoundingEffects.RoundedScoreBelowBaseline | src/fair_ranking.py:11-20 | a lone product with baseline 0.0004 gets `fair_score` 0.0, below its baseline |
| RoundingEffects.TieScores | src/fair_ranking.py:20 | 0.1231 and 0.1234 both round to 0.123 |
| RoundingEffects.SingleCategoryTieReorders | src/fair_ranking.py:20-23 | with one category, the fair order keeps a rounding tie in input order while the baseline order reverses it |
| RoundingEffects.RarerCategoryTie | src/fair_ranking.py:11-20 | 250 products with baseline 0.0002 and categories of one and two: the unrounded scores 0.1994 > 0.1986 both round to 0.199 |

## Left out

- Streamlit rendering is not modelled: page set-up, markdown, text area, slider, button, columns, metric widgets, the info banner and the bar chart (streamlit_app.py:7-40, 64-80, 96-156). It is presentation only.
- `json.loads` of the text area and the pandas frames are foreign library calls. A frame is the sequence of its rows' products, and the label filter `df[df["maincateg"] == …]` is `CountCategory`.
- The unused `pandas` import in src/fair_ranking.py is not modelled.
- IEEE-754 arithmetic is not modelled. Scores, ratios and percentages are exact reals, and `round` works on the exact value. Python's `round` on a binary float can differ where the float is not the decimal it prints (for example `round(2.675, 2)`).
- `compute_fairness` returns the integer `0` for a frame that has the "maincateg" column but no rows; the model returns the real 0.0, which compares equal. The dashboard never builds such a frame: its frames come from lists, and a frame built from an empty list has no columns, so line 45 raises `KeyError`. `Run` models that as its `KeyError` outcome; `ComputeFairness` itself takes the frame to have the column.
- The chart condition `b_gap == 0 and f_gap == 0` (streamlit_app.py:145) only chooses what is drawn, so it is not modelled.
- No validation is modelled. A missing field or a non-numeric score raises a Python exception in the code, and the model's record type always has every field.
- FairRank: `k` is a natural number. The dashboard's slider only yields 1 to 10, and Python's slice with a negative `k`, which drops entries from the end, is not modelled.
- WomenRatio: `k` is a natural number; `products[:k]` with a negative `k` drops entries from the end, which is not modelled.
- CompareFairness: `k` is a natural number, for the same reason as `WomenRatio`.
- SingleCategoryKeepsBaselineOrder: requires every baseline score to have at most three decimals. Without that, the claim is false (see `SingleCategoryTieReorders`).
