/**
 * Python's `round(x, places)` on the exact value of its argument: the nearest
 * multiple of 10^-places, a tie going to the multiple whose last digit is even.
 */
module Rounding {

  function Pow10(places: nat): (p: nat)
    ensures p >= 1
  {
    if places == 0 then 1 else 10 * Pow10(places - 1)
  }

  /** The integer nearest to `y`, ties to the even neighbour. */
  function RoundHalfEvenInt(y: real): (n: int)
    ensures y - 0.5 <= n as real <= y + 0.5
    ensures n as real == y - 0.5 || n as real == y + 0.5 ==> n % 2 == 0
  {
    var f := y.Floor;
    var d := y - f as real;
    if d < 0.5 then f
    else if d > 0.5 then f + 1
    else if f % 2 == 0 then f
    else f + 1
  }

  /** Python's `round(x, places)`. */
  function Round(x: real, places: nat): real
  {
    RoundScaled(x, Pow10(places) as real)
  }

  /** The multiple of `1 / scale` nearest to `x`, ties to an even multiple. */
  function RoundScaled(x: real, scale: real): real
    requires scale > 0.0
  {
    RoundHalfEvenInt(x * scale) as real / scale
  }

  lemma RoundHalfEvenIntMonotone(x: real, y: real)
    requires x <= y
    ensures RoundHalfEvenInt(x) <= RoundHalfEvenInt(y)
  {
    var fx, fy := x.Floor, y.Floor;
    assert fx <= fy;
  }

  lemma RoundHalfEvenIntOfInt(n: int)
    ensures RoundHalfEvenInt(n as real) == n
  {
    assert (n as real).Floor == n;
  }

  lemma MulMonotone(x: real, y: real, s: real)
    requires x <= y && s > 0.0
    ensures x * s <= y * s
  {
    assert (y - x) * s >= 0.0;
  }

  lemma DivMonotone(x: real, y: real, s: real)
    requires x <= y && s > 0.0
    ensures x / s <= y / s
  {
    assert (y - x) / s >= 0.0;
    assert y / s - x / s == (y - x) / s;
  }

  lemma RoundScaledMonotone(x: real, y: real, s: real)
    requires x <= y && s > 0.0
    ensures RoundScaled(x, s) <= RoundScaled(y, s)
  {
    MulMonotone(x, y, s);
    RoundHalfEvenIntMonotone(x * s, y * s);
    DivMonotone(RoundHalfEvenInt(x * s) as real, RoundHalfEvenInt(y * s) as real, s);
  }

  lemma RoundScaledOnGrid(n: int, s: real)
    requires s > 0.0
    ensures RoundScaled(n as real / s, s) == n as real / s
  {
    var g := n as real / s;
    assert g * s == n as real;
    RoundHalfEvenIntOfInt(n);
    assert RoundHalfEvenInt(g * s) == n;
    RoundScaledValue(g, s);
  }

  lemma RoundScaledValue(x: real, s: real)
    requires s > 0.0
    ensures RoundScaled(x, s) == RoundHalfEvenInt(x * s) as real / s
  {
  }

  lemma RoundScaledError(x: real, s: real)
    requires s > 0.0
    ensures x - 0.5 / s <= RoundScaled(x, s) <= x + 0.5 / s
  {
    var n := RoundHalfEvenInt(x * s);
    assert x * s - 0.5 <= n as real <= x * s + 0.5;
    DivMonotone(x * s - 0.5, n as real, s);
    DivMonotone(n as real, x * s + 0.5, s);
    assert (x * s - 0.5) / s == x - 0.5 / s;
    assert (x * s + 0.5) / s == x + 0.5 / s;
  }

  lemma RoundScaledDifference(x: real, y: real, s: real)
    requires s > 0.0
    ensures RoundScaled(RoundScaled(x, s) - RoundScaled(y, s), s) == RoundScaled(x, s) - RoundScaled(y, s)
  {
    var nx, ny := RoundHalfEvenInt(x * s), RoundHalfEvenInt(y * s);
    assert nx as real / s - ny as real / s == (nx - ny) as real / s;
    RoundScaledOnGrid(nx - ny, s);
  }

  /** Rounding never reverses an order. */
  lemma RoundMonotone(x: real, y: real, places: nat)
    requires x <= y
    ensures Round(x, places) <= Round(y, places)
  {
    RoundScaledMonotone(x, y, Pow10(places) as real);
  }

  /** A multiple of 10^-places is its own rounding. */
  lemma RoundOnGrid(n: int, places: nat)
    ensures Round(n as real / Pow10(places) as real, places) == n as real / Pow10(places) as real
  {
    RoundScaledOnGrid(n, Pow10(places) as real);
  }

  /** Rounding moves a value by at most half a unit of the last kept place. */
  lemma RoundError(x: real, places: nat)
    ensures x - 0.5 / Pow10(places) as real <= Round(x, places) <= x + 0.5 / Pow10(places) as real
  {
    RoundScaledError(x, Pow10(places) as real);
  }

  /** The difference of two rounded values is already rounded. */
  lemma RoundDifference(x: real, y: real, places: nat)
    ensures Round(Round(x, places) - Round(y, places), places) == Round(x, places) - Round(y, places)
  {
    RoundScaledDifference(x, y, Pow10(places) as real);
  }
}
