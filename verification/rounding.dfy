/**
 Python's `round(x, n)`, used by the reports with one decimal (scores, percentages) and
 three decimals (confidence statistics). It is taken on exact reals: the nearest multiple
 of 10^-n, ties to the even neighbour.
 */
module Rounding {

  /** The two precisions the reports round to: `round(x, 1)` and `round(x, 3)`. */
  datatype Places = OnePlace | ThreePlaces {

    /** Half of the last kept decimal unit: the largest distance rounding can move a value. */
    function HalfUnit(): real {
      match this
      case OnePlace => 0.05
      case ThreePlaces => 0.0005
    }

    /** 10^n: a value rounded to n places is a whole number of units of 1/10^n. */
    function Scale(): (s: real)
      ensures s * HalfUnit() == 0.5
    {
      match this
      case OnePlace => 10.0
      case ThreePlaces => 1000.0
    }
  }

  /** The integer nearest to `t`, a tie going to the even one (Python's `round(t)`). */
  function RoundHalfEven(t: real): (n: int)
    ensures t - 0.5 <= n as real <= t + 0.5
    ensures n as real == t - 0.5 || n as real == t + 0.5 ==> n % 2 == 0
  {
    var f := t.Floor;
    var frac := t - f as real;
    if frac > 0.5 then f + 1
    else if frac < 0.5 then f
    else if f % 2 == 0 then f else f + 1
  }

  /** Rounding to an integer never reverses the order of its arguments. */
  lemma RoundHalfEvenMonotone(s: real, t: real)
    requires s <= t
    ensures RoundHalfEven(s) <= RoundHalfEven(t)
  {
  }

  /**
   Python's `round(x, n)`: a multiple of 10^-n within half a unit of `x`, hence the nearest
   one, and on a tie (exactly half a unit away) the even multiple.
   */
  function RoundTo(x: real, places: Places): (r: real)
    ensures (r * places.Scale()).Floor as real == r * places.Scale()
    ensures x - places.HalfUnit() <= r <= x + places.HalfUnit()
    ensures r == x - places.HalfUnit() || r == x + places.HalfUnit() ==> (r * places.Scale()).Floor % 2 == 0
  {
    match places
    case OnePlace =>
      var n := RoundHalfEven(x * 10.0);
      var r := n as real / 10.0;
      assert places.Scale() == 10.0 && r * 10.0 == n as real;
      assert (n as real).Floor == n;
      r
    case ThreePlaces =>
      var n := RoundHalfEven(x * 1000.0);
      var r := n as real / 1000.0;
      assert places.Scale() == 1000.0 && r * 1000.0 == n as real;
      assert (n as real).Floor == n;
      r
  }

  /** Rounding to a fixed number of decimals never reverses the order of its arguments. */
  lemma RoundToMonotone(x: real, y: real, places: Places)
    requires x <= y
    ensures RoundTo(x, places) <= RoundTo(y, places)
  {
    match places
    case OnePlace =>
      RoundHalfEvenMonotone(x * 10.0, y * 10.0);
      assert RoundTo(x, places) == RoundHalfEven(x * 10.0) as real / 10.0;
      assert RoundTo(y, places) == RoundHalfEven(y * 10.0) as real / 10.0;
    case ThreePlaces =>
      RoundHalfEvenMonotone(x * 1000.0, y * 1000.0);
      assert RoundTo(x, places) == RoundHalfEven(x * 1000.0) as real / 1000.0;
      assert RoundTo(y, places) == RoundHalfEven(y * 1000.0) as real / 1000.0;
  }

  /** A whole number is left unchanged by rounding. */
  lemma RoundToWhole(v: int, places: Places)
    ensures RoundTo(v as real, places) == v as real
  {
    var t := v as real * places.Scale();
    assert t == (v * (if places.OnePlace? then 10 else 1000)) as real;
    assert t.Floor as real == t;
    assert RoundHalfEven(t) as real == t;
  }

  /** A value between two whole numbers stays between them after rounding. */
  lemma RoundToWithin(x: real, lo: int, hi: int, places: Places)
    requires lo as real <= x <= hi as real
    ensures lo as real <= RoundTo(x, places) <= hi as real
  {
    RoundToMonotone(lo as real, x, places);
    RoundToMonotone(x, hi as real, places);
    RoundToWhole(lo, places);
    RoundToWhole(hi, places);
  }

  /** Python's `int(x)` on a float: the integer part, rounding toward zero. */
  function Truncate(x: real): (n: int)
    ensures x >= 0.0 ==> n as real <= x < n as real + 1.0
    ensures x < 0.0 ==> n as real - 1.0 < x <= n as real
  {
    if x >= 0.0 then x.Floor else -((-x).Floor)
  }
}
