/**
 * The records the ranking and the metrics work on, and per-category counting
 * (the `collections.Counter` of the ranker and the label counts of the metrics).
 */
module Products {
  import opened Sequences

  /** An input product: `{"title", "maincateg", "baseline_score"}`. */
  datatype Product = Product(title: string, maincateg: string, baselineScore: real)

  /** An output entry of the fair ranker: the product's fields plus `fair_score`. */
  datatype RankedEntry = RankedEntry(title: string, maincateg: string, baselineScore: real, fairScore: real)

  /** The two labels the metrics and the dashboard compare. */
  const Women: string := "Women"
  const Men: string := "Men"

  /** The product fields an entry copies. */
  function ToProduct(e: RankedEntry): Product
  {
    Product(e.title, e.maincateg, e.baselineScore)
  }

  function BaselineKey(p: Product): real
  {
    p.baselineScore
  }

  function Category(p: Product): string
  {
    p.maincateg
  }

  /** Number of products whose `maincateg` is `c`. */
  function CountCategory(ps: seq<Product>, c: string): nat
  {
    if ps == [] then 0
    else CountCategory(ps[..|ps| - 1], c) + (if ps[|ps| - 1].maincateg == c then 1 else 0)
  }

  /** The set of categories that occur in `ps`. */
  function Categories(ps: seq<Product>): set<string>
  {
    set i | 0 <= i < |ps| :: ps[i].maincateg
  }

  /**
   * `Counter(p["maincateg"] for p in products)`: one key per category that
   * occurs, mapped to its number of occurrences; a category that does not
   * occur reads as 0, as a Counter's missing key does.
   */
  function CategoryCounts(ps: seq<Product>): (counts: map<string, nat>)
    ensures counts.Keys == Categories(ps)
    ensures forall c :: CountCategory(ps, c) == if c in counts then counts[c] else 0
  {
    if ps == [] then map[]
    else
      var counts := CategoryCounts(ps[..|ps| - 1]);
      var c := ps[|ps| - 1].maincateg;
      assert Categories(ps) == Categories(ps[..|ps| - 1]) + {c} by {
        forall d | d in Categories(ps) ensures d in Categories(ps[..|ps| - 1]) + {c} {
          var i :| 0 <= i < |ps| && ps[i].maincateg == d;
          if i < |ps| - 1 {
            assert ps[..|ps| - 1][i] == ps[i];
          }
        }
        forall d | d in Categories(ps[..|ps| - 1]) ensures d in Categories(ps) {
          var i :| 0 <= i < |ps| - 1 && ps[..|ps| - 1][i].maincateg == d;
          assert ps[i].maincateg == d;
        }
      }
      counts[c := (if c in counts then counts[c] else 0) + 1]
  }

  lemma {:induction false} CountCategoryBound(ps: seq<Product>, c: string)
    ensures CountCategory(ps, c) <= |ps|
  {
    if ps != [] {
      CountCategoryBound(ps[..|ps| - 1], c);
    }
  }

  /** Two labels never share a product, so their counts add up to at most the length. */
  lemma {:induction false} CountTwoCategories(ps: seq<Product>, c: string, d: string)
    requires c != d
    ensures CountCategory(ps, c) + CountCategory(ps, d) <= |ps|
  {
    if ps != [] {
      CountTwoCategories(ps[..|ps| - 1], c, d);
    }
  }

  /** A category that occurs is counted at least once. */
  lemma {:induction false} CountCategoryPositive(ps: seq<Product>, i: nat)
    requires i < |ps|
    ensures CountCategory(ps, ps[i].maincateg) >= 1
  {
    if i < |ps| - 1 {
      assert ps[..|ps| - 1][i] == ps[i];
      CountCategoryPositive(ps[..|ps| - 1], i);
    }
  }

  /** The count reaches the length exactly when every product has that category. */
  lemma {:induction false} CountCategoryAll(ps: seq<Product>, c: string)
    ensures CountCategory(ps, c) == |ps| <==> forall i :: 0 <= i < |ps| ==> ps[i].maincateg == c
  {
    if ps != [] {
      var init := ps[..|ps| - 1];
      CountCategoryAll(init, c);
      CountCategoryBound(init, c);
      if forall i :: 0 <= i < |ps| ==> ps[i].maincateg == c {
        forall i | 0 <= i < |init| ensures init[i].maincateg == c {
          assert init[i] == ps[i];
        }
      }
    }
  }

  /** Counting reads only the multiset of categories. */
  lemma {:induction false} CountIsMultiplicity(ps: seq<Product>, c: string)
    ensures CountCategory(ps, c) == multiset(MapSeq(ps, Category))[c]
  {
    if ps != [] {
      var n := |ps| - 1;
      CountIsMultiplicity(ps[..n], c);
      assert MapSeq(ps, Category) == MapSeq(ps[..n], Category) + [ps[n].maincateg];
    }
  }

  /** Reordering the products does not change any category's count. */
  lemma CountPermutation(a: seq<Product>, b: seq<Product>, c: string)
    requires multiset(a) == multiset(b)
    ensures CountCategory(a, c) == CountCategory(b, c)
  {
    CountIsMultiplicity(a, c);
    CountIsMultiplicity(b, c);
    MapPermutation(a, b, Category);
  }
}
