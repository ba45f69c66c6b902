/**
 * The aggregator: `find_min`, `find_max` and `calculate_mean`, with the
 * Python builtins the summary uses beside them (`sum`, `min`, `max`,
 * `list.index`) as reference functions.
 */
module Aggregates {
  import opened Wrappers
  import opened Rounding

  /** A number as it may sit in a Python list: an int or a float. */
  datatype Number = Int(i: int) | Float(f: real) {
    /** `float(x)` */
    function AsFloat(): real {
      match this
      case Int(i) => i as real
      case Float(f) => f
    }
  }

  /** The `(value, index)` pair returned by `find_min` and `find_max`. */
  datatype Extremum = Extremum(value: real, index: nat)

  /** `calculate_mean` divides by zero on an empty list. */
  datatype MeanError = DivisionByZero

  /** The float value of every element, in order. */
  function Floats(xs: seq<Number>): (ys: seq<real>)
    ensures |ys| == |xs|
  {
    seq(|xs|, i requires 0 <= i < |xs| => xs[i].AsFloat())
  }

  /** Every element replaced by `float(element)`. */
  function Coerced(xs: seq<Number>): (ys: seq<Number>)
    ensures |ys| == |xs|
  {
    seq(|xs|, i requires 0 <= i < |xs| => Float(xs[i].AsFloat()))
  }

  ghost predicate IsMinAt(xs: seq<real>, i: int) {
    0 <= i < |xs| && forall j :: 0 <= j < |xs| ==> xs[i] <= xs[j]
  }

  ghost predicate IsMaxAt(xs: seq<real>, i: int) {
    0 <= i < |xs| && forall j :: 0 <= j < |xs| ==> xs[j] <= xs[i]
  }

  /** `i` holds the minimum and no later position holds the same value. */
  ghost predicate IsLastMinAt(xs: seq<real>, i: int) {
    IsMinAt(xs, i) && forall j :: i < j < |xs| ==> xs[j] != xs[i]
  }

  /** `i` holds the maximum and no later position holds the same value. */
  ghost predicate IsLastMaxAt(xs: seq<real>, i: int) {
    IsMaxAt(xs, i) && forall j :: i < j < |xs| ==> xs[j] != xs[i]
  }

  /** `i` holds the minimum and no earlier position holds the same value. */
  ghost predicate IsFirstMinAt(xs: seq<real>, i: int) {
    IsMinAt(xs, i) && forall j :: 0 <= j < i ==> xs[j] != xs[i]
  }

  /** `i` holds the maximum and no earlier position holds the same value. */
  ghost predicate IsFirstMaxAt(xs: seq<real>, i: int) {
    IsMaxAt(xs, i) && forall j :: 0 <= j < i ==> xs[j] != xs[i]
  }

  /**
   * `find_min`: the smallest value and the position of its LAST occurrence,
   * or nothing (the empty tuple) for an empty list.
   */
  method FindMin(xs: seq<Number>) returns (r: Option<Extremum>)
    ensures r.None? <==> |xs| == 0
    ensures r.Some? ==>
              IsLastMinAt(Floats(xs), r.value.index) && r.value.value == xs[r.value.index].AsFloat()
  {
    if |xs| > 0 {
      var best := Extremum(xs[0].AsFloat(), 0);
      for i := 0 to |xs|
        invariant best.index < |xs| && best.value == xs[best.index].AsFloat()
        invariant best.index <= i
        invariant forall j :: 0 <= j < i ==> best.value <= xs[j].AsFloat()
        invariant forall j :: best.index < j < i ==> xs[j].AsFloat() != best.value
      {
        if xs[i].AsFloat() <= best.value {
          best := Extremum(xs[i].AsFloat(), i);
        }
      }
      r := Some(best);
    } else {
      r := None;
    }
  }

  /**
   * `find_max`: the largest value and the position of its LAST occurrence,
   * or nothing (the empty tuple) for an empty list.
   */
  method FindMax(xs: seq<Number>) returns (r: Option<Extremum>)
    ensures r.None? <==> |xs| == 0
    ensures r.Some? ==>
              IsLastMaxAt(Floats(xs), r.value.index) && r.value.value == xs[r.value.index].AsFloat()
  {
    if |xs| > 0 {
      var best := Extremum(xs[0].AsFloat(), 0);
      for i := 0 to |xs|
        invariant best.index < |xs| && best.value == xs[best.index].AsFloat()
        invariant best.index <= i
        invariant forall j :: 0 <= j < i ==> xs[j].AsFloat() <= best.value
        invariant forall j :: best.index < j < i ==> xs[j].AsFloat() != best.value
      {
        if xs[i].AsFloat() >= best.value {
          best := Extremum(xs[i].AsFloat(), i);
        }
      }
      r := Some(best);
    } else {
      r := None;
    }
  }

  /** The last-occurrence rule picks exactly one position: in [1, 2, 1, 3] it is 2. */
  lemma LastMinExample(i: int)
    ensures IsLastMinAt([1.0, 2.0, 1.0, 3.0], i) <==> i == 2
  {
    var xs := [1.0, 2.0, 1.0, 3.0];
    if IsLastMinAt(xs, i) {
      assert xs[i] <= xs[0];
    }
  }

  /** In [1, 3, 3, 2] the last maximum is at position 2. */
  lemma LastMaxExample(i: int)
    ensures IsLastMaxAt([1.0, 3.0, 3.0, 2.0], i) <==> i == 2
  {
    var xs := [1.0, 3.0, 3.0, 2.0];
    if IsLastMaxAt(xs, i) {
      assert xs[1] <= xs[i];
    }
  }

  /** `sum(xs)`, adding from the left. */
  function Sum(xs: seq<real>): real {
    if |xs| == 0 then 0.0 else Sum(xs[..|xs| - 1]) + xs[|xs| - 1]
  }

  /** The arithmetic mean before rounding: the value that, once per element, adds up to the sum. */
  function Mean(xs: seq<real>): (m: real)
    requires |xs| > 0
    ensures m * |xs| as real == Sum(xs)
  {
    Sum(xs) / |xs| as real
  }

  /**
   * `calculate_mean`: overwrites every element with its float value, in
   * place, then returns the mean rounded to five decimals; an empty list
   * divides by zero.
   */
  method CalculateMean(a: array<Number>) returns (r: Result<real, MeanError>)
    modifies a
    ensures a[..] == Coerced(old(a[..]))
    ensures a.Length == 0 ==> r == Failure(DivisionByZero)
    ensures a.Length > 0 ==> r == Success(RoundTo(Mean(Floats(old(a[..]))), 5))
  {
    var n := a.Length;
    for i := 0 to a.Length
      invariant forall j :: 0 <= j < i ==> a[j] == Float(old(a[j]).AsFloat())
      invariant forall j :: i <= j < a.Length ==> a[j] == old(a[j])
    {
      a[i] := Float(a[i].AsFloat());
    }
    assert Floats(a[..]) == Floats(old(a[..]));
    var total := Sum(Floats(a[..]));
    if n == 0 {
      return Failure(DivisionByZero);
    }
    r := Success(RoundTo(total / n as real, 5));
  }

  /** `min(xs)` */
  function MinOf(xs: seq<real>): (m: real)
    requires |xs| > 0
    ensures m in xs
    ensures forall j :: 0 <= j < |xs| ==> m <= xs[j]
  {
    if |xs| == 1 then xs[0]
    else
      var rest := MinOf(xs[1..]);
      if xs[0] <= rest then xs[0] else rest
  }

  /** `max(xs)` */
  function MaxOf(xs: seq<real>): (m: real)
    requires |xs| > 0
    ensures m in xs
    ensures forall j :: 0 <= j < |xs| ==> xs[j] <= m
  {
    if |xs| == 1 then xs[0]
    else
      var rest := MaxOf(xs[1..]);
      if xs[0] >= rest then xs[0] else rest
  }

  /** `xs.index(v)`: the first position holding `v`. */
  function FirstIndex(xs: seq<real>, v: real): (i: nat)
    requires v in xs
    ensures i < |xs| && xs[i] == v
    ensures forall j :: 0 <= j < i ==> xs[j] != v
  {
    if xs[0] == v then 0 else 1 + FirstIndex(xs[1..], v)
  }

  /** `xs.index(min(xs))` is the first position of the minimum. */
  lemma FirstIndexOfMin(xs: seq<real>)
    requires |xs| > 0
    ensures IsFirstMinAt(xs, FirstIndex(xs, MinOf(xs)))
  {
  }

  /** `xs.index(max(xs))` is the first position of the maximum. */
  lemma FirstIndexOfMax(xs: seq<real>)
    requires |xs| > 0
    ensures IsFirstMaxAt(xs, FirstIndex(xs, MaxOf(xs)))
  {
  }

  /**
   * The two tie-break rules of the program: `find_min` (last occurrence) and
   * `index(min(...))` (first occurrence) agree on the value, the first never
   * comes after the last, and they pick the same position exactly when the
   * minimum occurs once.
   */
  lemma FirstAndLastMin(xs: seq<real>, first: int, last: int)
    requires IsFirstMinAt(xs, first) && IsLastMinAt(xs, last)
    ensures xs[first] == xs[last] && first <= last
    ensures first == last <==> forall j :: 0 <= j < |xs| && j != last ==> xs[j] != xs[last]
  {
    assert xs[first] <= xs[last] && xs[last] <= xs[first];
  }

  /** `calculate_mean([0, 8, 4])` is 4. */
  lemma MeanExample()
    ensures RoundTo(Mean([0.0, 8.0, 4.0]), 5) == 4.0
  {
    var xs := [0.0, 8.0, 4.0];
    assert [0.0][..0] == [];
    assert Sum([0.0]) == 0.0;
    assert [0.0, 8.0][..1] == [0.0];
    assert Sum([0.0, 8.0]) == 8.0;
    assert xs[..2] == [0.0, 8.0];
    assert Sum(xs) == 12.0;
    assert Scale(4.0, 5) == 400000.0;
    RoundOnGrid(4.0, 5);
  }

  lemma {:induction false} SumAppend(xs: seq<real>, ys: seq<real>)
    ensures Sum(xs + ys) == Sum(xs) + Sum(ys)
    decreases |ys|
  {
    if |ys| > 0 {
      var zs := xs + ys;
      assert zs[..|zs| - 1] == xs + ys[..|ys| - 1];
      SumAppend(xs, ys[..|ys| - 1]);
    } else {
      assert xs + ys == xs;
    }
  }

  /** The sum does not depend on the order of the elements. */
  lemma {:induction false} SumPermutation(xs: seq<real>, ys: seq<real>)
    requires multiset(xs) == multiset(ys)
    ensures Sum(xs) == Sum(ys)
    decreases |xs|
  {
    if |xs| == 0 {
      assert |ys| == |multiset(ys)| == 0;
    } else {
      var n := |xs| - 1;
      var x := xs[n];
      assert xs == xs[..n] + [x];
      assert x in multiset(ys);
      var k :| 0 <= k < |ys| && ys[k] == x;
      var rest := ys[..k] + ys[k + 1..];
      assert ys == ys[..k] + [x] + ys[k + 1..];
      assert multiset(ys) == multiset(rest) + multiset{x};
      assert multiset(xs[..n]) == multiset(xs) - multiset{x};
      assert multiset(rest) == multiset(ys) - multiset{x};
      SumPermutation(xs[..n], rest);
      SumAppend(ys[..k] + [x], ys[k + 1..]);
      SumAppend(ys[..k], [x]);
      SumAppend(ys[..k], ys[k + 1..]);
      assert Sum([x]) == x by {
        assert [x][..0] == [];
      }
    }
  }

  /** The mean is invariant under reordering. */
  lemma MeanPermutation(xs: seq<real>, ys: seq<real>)
    requires |xs| > 0 && multiset(xs) == multiset(ys)
    ensures |ys| == |xs| && Mean(xs) == Mean(ys)
  {
    assert |xs| == |multiset(xs)| == |multiset(ys)| == |ys|;
    SumPermutation(xs, ys);
  }

  lemma {:induction false} SumBounds(xs: seq<real>, lo: real, hi: real)
    requires forall j :: 0 <= j < |xs| ==> lo <= xs[j] <= hi
    ensures |xs| as real * lo <= Sum(xs) <= |xs| as real * hi
  {
    if |xs| > 0 {
      var n := |xs| - 1;
      SumBounds(xs[..n], lo, hi);
      assert |xs| as real * lo == n as real * lo + lo;
      assert |xs| as real * hi == n as real * hi + hi;
    }
  }

  lemma DivideBetween(total: real, n: real, lo: real, hi: real)
    requires n > 0.0 && n * lo <= total <= n * hi
    ensures lo <= total / n <= hi
  {
    assert total / n - lo == (total - n * lo) / n;
    assert hi - total / n == (n * hi - total) / n;
  }

  /** The mean lies between any lower and upper bound of the elements. */
  lemma MeanBounded(xs: seq<real>, lo: real, hi: real)
    requires |xs| > 0
    requires forall j :: 0 <= j < |xs| ==> lo <= xs[j] <= hi
    ensures lo <= Mean(xs) <= hi
  {
    SumBounds(xs, lo, hi);
    DivideBetween(Sum(xs), |xs| as real, lo, hi);
  }

  /** The mean lies between the smallest and the largest element. */
  lemma MeanBetween(xs: seq<real>)
    requires |xs| > 0
    ensures MinOf(xs) <= Mean(xs) <= MaxOf(xs)
  {
    MeanBounded(xs, MinOf(xs), MaxOf(xs));
  }
}
