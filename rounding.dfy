/**
 * Python's `round(x, d)` taken on exact reals: the nearest multiple of
 * 10^-d, ties going to the even multiple.
 */
module Rounding {

  function Pow10(d: nat): (p: nat)
    ensures p >= 1
  {
    if d == 0 then 1 else 10 * Pow10(d - 1)
  }

  predicate IsInteger(y: real) {
    y.Floor as real == y
  }

  /** x * 10^d */
  function Scale(x: real, d: nat): real {
    x * Pow10(d) as real
  }

  /** `x` is a whole multiple of 10^-d, i.e. it has at most `d` decimals. */
  predicate OnGrid(x: real, d: nat) {
    IsInteger(Scale(x, d))
  }

  /** The integer nearest to `y`; on a tie, the even one. */
  function NearestEven(y: real): (k: int)
    ensures -0.5 <= k as real - y <= 0.5
  {
    var f := y.Floor;
    var frac := y - f as real;
    if frac < 0.5 then f
    else if frac > 0.5 then f + 1
    else if f % 2 == 0 then f else f + 1
  }

  /** `round(x, d)`: at most `d` decimals and within half a unit of the last decimal of `x`. */
  function RoundTo(x: real, d: nat): (r: real)
    ensures OnGrid(r, d)
    ensures -0.5 / Pow10(d) as real <= r - x <= 0.5 / Pow10(d) as real
  {
    var k := NearestEven(Scale(x, d));
    UnscaleOnGrid(k, d);
    UnscaleError(x, k, d);
    k as real / Pow10(d) as real
  }

  /** k / 10^d has at most d decimals. */
  lemma UnscaleOnGrid(k: int, d: nat)
    ensures OnGrid(k as real / Pow10(d) as real, d)
  {
    var p := Pow10(d) as real;
    assert Scale(k as real / p, d) == k as real;
    assert (k as real).Floor == k;
  }

  /** Within half a unit after scaling means within half a unit of the last decimal before. */
  lemma UnscaleError(x: real, k: int, d: nat)
    requires -0.5 <= k as real - Scale(x, d) <= 0.5
    ensures -0.5 / Pow10(d) as real <= k as real / Pow10(d) as real - x <= 0.5 / Pow10(d) as real
  {
    var p := Pow10(d) as real;
    var e := k as real - Scale(x, d);
    assert k as real / p - x == e / p;
    DivideMonotone(-0.5, e, p);
    DivideMonotone(e, 0.5, p);
  }

  lemma NearestEvenOfInteger(y: real)
    requires IsInteger(y)
    ensures NearestEven(y) as real == y
  {
    assert y - y.Floor as real == 0.0;
  }

  /** Rounding a value that already has at most `d` decimals leaves it unchanged. */
  lemma RoundOnGrid(x: real, d: nat)
    requires OnGrid(x, d)
    ensures RoundTo(x, d) == x
  {
    NearestEvenOfInteger(Scale(x, d));
    assert Scale(x, d) / Pow10(d) as real == x;
  }

  /** A value with at most `d` decimals has at most `e` decimals for every e >= d. */
  lemma {:induction false} OnGridWiden(x: real, d: nat, e: nat)
    requires OnGrid(x, d) && d <= e
    ensures OnGrid(x, e)
    decreases e - d
  {
    if d < e {
      var y := Scale(x, d);
      assert Scale(x, d + 1) == y * 10.0;
      IntegerTimesTen(y);
      OnGridWiden(x, d + 1, e);
    }
  }

  /** Ten times a whole number is a whole number. */
  lemma IntegerTimesTen(y: real)
    requires IsInteger(y)
    ensures IsInteger(y * 10.0)
  {
    var n := y.Floor * 10;
    assert y * 10.0 == n as real;
    assert (n as real).Floor == n;
  }

  lemma NearestEvenMonotone(y: real, z: real)
    requires y <= z
    ensures NearestEven(y) <= NearestEven(z)
  {
    if y.Floor < z.Floor {
      assert NearestEven(y) <= y.Floor + 1 <= z.Floor <= NearestEven(z);
    } else {
      assert y - y.Floor as real <= z - z.Floor as real;
    }
  }

  lemma DivideMonotone(a: real, b: real, p: real)
    requires a <= b && p > 0.0
    ensures a / p <= b / p
  {
    assert b / p - a / p == (b - a) / p;
  }

  lemma ScaleMonotone(x: real, y: real, d: nat)
    requires x <= y
    ensures Scale(x, d) <= Scale(y, d)
  {
    assert Scale(y, d) - Scale(x, d) == (y - x) * Pow10(d) as real;
  }

  /** `round` never reverses the order of two values. */
  lemma RoundMonotone(x: real, y: real, d: nat)
    requires x <= y
    ensures RoundTo(x, d) <= RoundTo(y, d)
  {
    ScaleMonotone(x, y, d);
    NearestEvenMonotone(Scale(x, d), Scale(y, d));
    DivideMonotone(NearestEven(Scale(x, d)) as real, NearestEven(Scale(y, d)) as real, Pow10(d) as real);
  }
}
