/** The piecewise-linear interpolation that `ZeroCurve.getZeroRate` and `ParCurve.getParRate`
    perform over a list of maturity knots, stated as functions of the knot lists.  The
    methods of the curve classes are proved to compute exactly these functions. */
module Interpolation {
  import opened Outcomes
  import opened Dates

  /** The order the curve code assumes of its knots without checking it. */
  predicate Ascending(mats: seq<Date>) {
    forall i, j :: 0 <= i < j < |mats| ==> mats[i] <= mats[j]
  }

  predicate StrictlyAscending(mats: seq<Date>) {
    forall i, j :: 0 <= i < j < |mats| ==> mats[i] < mats[j]
  }

  /** The first index at or after `from` whose knot is not before `mat` (|mats| if there is
      none): the position where the scan of the curve code stops. */
  function FirstAtOrAbove(mats: seq<Date>, mat: Date, from: nat): (k: nat)
    requires from <= |mats|
    ensures from <= k <= |mats|
    ensures forall j :: from <= j < k ==> mats[j] < mat
    ensures k < |mats| ==> mat <= mats[k]
    decreases |mats| - from
  {
    if from == |mats| || mat <= mats[from] then from else FirstAtOrAbove(mats, mat, from + 1)
  }

  /** How far `mat` lies along the segment from knot `m0` to knot `m1` (`fac` in the source). */
  function Fraction(m0: Date, m1: Date, mat: Date): real
    requires m0 != m1
  {
    (mat - m0) as real / (m1 - m0) as real
  }

  /** The straight line through `(m0, r0)` and `(m1, r1)`, evaluated at `mat`. */
  function Lerp(m0: Date, r0: real, m1: Date, r1: real, mat: Date): real
    requires m0 != m1
  {
    var f := Fraction(m0, m1, mat);
    (1.0 - f) * r0 + f * r1
  }

  const AboveRangeMessage := "Maturity longer than longest zero maturity"

  /** What `ZeroCurve.getZeroRate(mat)` returns or raises: an IndexError on an empty curve,
      a ValueError above the last knot, the first rate at or below the first knot, and
      otherwise the rate at the first later knot that is not before `mat`, interpolated
      from its predecessor when `mat` is not that knot. */
  function ZeroRateAt(mats: seq<Date>, rates: seq<real>, mat: Date): (r: Result<real>)
    requires |mats| == |rates|
    ensures r.Err? <==> |mats| == 0 || mats[|mats| - 1] < mat
  {
    if |mats| == 0 then Err(IndexError)
    else if mat > mats[|mats| - 1] then Err(ValueError(AboveRangeMessage))
    else if mat <= mats[0] then Ok(rates[0])
    else
      var k := FirstAtOrAbove(mats, mat, 1);
      if mats[k] == mat then Ok(rates[k])
      else Ok(Lerp(mats[k - 1], rates[k - 1], mats[k], rates[k], mat))
  }

  /** What `ParCurve.getParRate(mat)` returns or raises: the same scan without the two range
      guards, so `None` (Python's fall-through) when no knot after the first is at or above
      `mat`, and the first segment extended below the first knot. */
  function ParRateAt(mats: seq<Date>, rates: seq<real>, mat: Date): (r: Result<Option<real>>)
    requires |mats| == |rates|
    ensures r.Err? ==> |mats| == 0 || (2 <= |mats| && mats[0] == mats[1])
  {
    if |mats| == 0 then Err(IndexError)
    else
      var k := FirstAtOrAbove(mats, mat, 1);
      if k == |mats| then Ok(None)
      else if mats[k] == mat then Ok(Some(rates[k]))
      else if mats[k] == mats[k - 1] then Err(ZeroDivisionError)
      else Ok(Some(Lerp(mats[k - 1], rates[k - 1], mats[k], rates[k], mat)))
  }

  // ---------------------------------------------------------------------------
  // Properties of the interpolant
  // ---------------------------------------------------------------------------

  /** Strictly between two knots the weight of the right-hand knot is strictly between 0 and
      1, so the interpolated rate lies between the two knot rates. */
  lemma LerpBetween(m0: Date, r0: real, m1: Date, r1: real, mat: Date)
    requires m0 < mat < m1
    ensures 0.0 < Fraction(m0, m1, mat) < 1.0
    ensures r0 <= r1 ==> r0 <= Lerp(m0, r0, m1, r1, mat) <= r1
    ensures r1 <= r0 ==> r1 <= Lerp(m0, r0, m1, r1, mat) <= r0
  {
    var f := Fraction(m0, m1, mat);
    var num, den := (mat - m0) as real, (m1 - m0) as real;
    assert f * den == num;
    assert 0.0 < f < 1.0;
    assert Lerp(m0, r0, m1, r1, mat) == r0 + f * (r1 - r0);
    if r0 <= r1 {
      assert 0.0 <= f * (r1 - r0) <= r1 - r0;
    } else {
      assert r1 - r0 <= f * (r1 - r0) <= 0.0;
    }
  }

  /** At the midpoint of two knots the interpolated rate is the average of their rates. */
  lemma LerpMidpoint(m0: Date, r0: real, m1: Date, r1: real)
    requires m0 < m1 && (m0 + m1) % 2 == 0
    ensures Lerp(m0, r0, m1, r1, (m0 + m1) / 2) == (r0 + r1) / 2.0
  {
    var mid := (m0 + m1) / 2;
    assert (mid - m0) * 2 == m1 - m0;
    assert Fraction(m0, m1, mid) == 0.5;
  }

  /** On knots in strictly ascending order, the scan from `from` stops at knot `i` when asked
      for that knot's own maturity. */
  lemma FirstAtOrAboveKnot(mats: seq<Date>, from: nat, i: nat)
    requires StrictlyAscending(mats) && from <= i < |mats|
    ensures FirstAtOrAbove(mats, mats[i], from) == i
  {
  }

  /** On ascending knots, the scan from 1 stops at `i` when `mat` lies strictly between
      knots `i - 1` and `i`. */
  lemma FirstAtOrAboveBetween(mats: seq<Date>, i: nat, mat: Date)
    requires Ascending(mats) && 1 <= i < |mats| && mats[i - 1] < mat < mats[i]
    ensures FirstAtOrAbove(mats, mat, 1) == i
  {
  }

  // ---------------------------------------------------------------------------
  // getZeroRate
  // ---------------------------------------------------------------------------

  /** Above the last knot the zero curve raises; it never extrapolates upwards. */
  lemma ZeroRateAboveLast(mats: seq<Date>, rates: seq<real>, mat: Date)
    requires |mats| == |rates| && 0 < |mats| && mats[|mats| - 1] < mat
    ensures ZeroRateAt(mats, rates, mat) == Err(ValueError(AboveRangeMessage))
  {
  }

  /** At or below the first knot the zero curve is flat at the first rate (as long as the
      query is not also above the last knot). */
  lemma ZeroRateFlatBelow(mats: seq<Date>, rates: seq<real>, mat: Date)
    requires |mats| == |rates| && Ascending(mats) && 0 < |mats| && mat <= mats[0]
    ensures ZeroRateAt(mats, rates, mat) == Ok(rates[0])
  {
  }

  /** The zero curve passes through every knot. */
  lemma ZeroRateAtKnot(mats: seq<Date>, rates: seq<real>, i: nat)
    requires |mats| == |rates| && StrictlyAscending(mats) && i < |mats|
    ensures ZeroRateAt(mats, rates, mats[i]) == Ok(rates[i])
  {
    if 0 < i {
      FirstAtOrAboveKnot(mats, 1, i);
    }
  }

  /** Strictly between knots `i - 1` and `i` the zero curve is the weighted average
      `(1 - f) * rates[i - 1] + f * rates[i]` with `0 < f < 1`, so it lies between the two
      knot rates. */
  lemma ZeroRateBetweenKnots(mats: seq<Date>, rates: seq<real>, i: nat, mat: Date)
    requires |mats| == |rates| && Ascending(mats) && 1 <= i < |mats|
    requires mats[i - 1] < mat < mats[i]
    ensures var f := Fraction(mats[i - 1], mats[i], mat);
      0.0 < f < 1.0 &&
      ZeroRateAt(mats, rates, mat) == Ok((1.0 - f) * rates[i - 1] + f * rates[i])
    ensures var r := ZeroRateAt(mats, rates, mat).value;
      (rates[i - 1] <= rates[i] ==> rates[i - 1] <= r <= rates[i]) &&
      (rates[i] <= rates[i - 1] ==> rates[i] <= r <= rates[i - 1])
  {
    FirstAtOrAboveBetween(mats, i, mat);
    LerpBetween(mats[i - 1], rates[i - 1], mats[i], rates[i], mat);
  }

  /** Halfway between two neighbouring knots the zero curve is the average of their rates. */
  lemma ZeroRateMidpoint(mats: seq<Date>, rates: seq<real>, i: nat)
    requires |mats| == |rates| && Ascending(mats) && 1 <= i < |mats|
    requires mats[i - 1] < mats[i] && (mats[i - 1] + mats[i]) % 2 == 0
    ensures ZeroRateAt(mats, rates, (mats[i - 1] + mats[i]) / 2) == Ok((rates[i - 1] + rates[i]) / 2.0)
  {
    var mid := (mats[i - 1] + mats[i]) / 2;
    if mats[i - 1] < mid {
      FirstAtOrAboveBetween(mats, i, mid);
      LerpMidpoint(mats[i - 1], rates[i - 1], mats[i], rates[i]);
    }
  }

  // ---------------------------------------------------------------------------
  // getParRate, and where it departs from getZeroRate
  // ---------------------------------------------------------------------------

  /** The par curve passes through every knot after the first. */
  lemma ParRateAtKnot(mats: seq<Date>, rates: seq<real>, i: nat)
    requires |mats| == |rates| && StrictlyAscending(mats) && 1 <= i < |mats|
    ensures ParRateAt(mats, rates, mats[i]) == Ok(Some(rates[i]))
  {
    FirstAtOrAboveKnot(mats, 1, i);
  }

  /** At the first knot of a curve with at least two knots the par curve gives the first
      rate, as the weight of the second knot is then 0. */
  lemma ParRateAtFirstKnot(mats: seq<Date>, rates: seq<real>)
    requires |mats| == |rates| && StrictlyAscending(mats) && 2 <= |mats|
    ensures ParRateAt(mats, rates, mats[0]) == Ok(Some(rates[0]))
  {
    assert FirstAtOrAbove(mats, mats[0], 1) == 1;
    assert Fraction(mats[0], mats[1], mats[0]) == 0.0;
  }

  /** Below the first knot the par curve is not flat: it extends the first segment, with a
      negative weight on the second knot. */
  lemma ParRateBelowFirst(mats: seq<Date>, rates: seq<real>, mat: Date)
    requires |mats| == |rates| && StrictlyAscending(mats) && 2 <= |mats| && mat < mats[0]
    ensures Fraction(mats[0], mats[1], mat) < 0.0
    ensures ParRateAt(mats, rates, mat) == Ok(Some(Lerp(mats[0], rates[0], mats[1], rates[1], mat)))
  {
    assert FirstAtOrAbove(mats, mat, 1) == 1;
    var num, den := (mat - mats[0]) as real, (mats[1] - mats[0]) as real;
    var f := Fraction(mats[0], mats[1], mat);
    assert f * den == num;
  }

  /** Above the last knot the par curve raises nothing: Python's method falls off the end
      of its loop and returns None. */
  lemma ParRateAboveLast(mats: seq<Date>, rates: seq<real>, mat: Date)
    requires |mats| == |rates| && Ascending(mats) && 0 < |mats| && mats[|mats| - 1] < mat
    ensures ParRateAt(mats, rates, mat) == Ok(None)
  {
  }

  /** A par curve of one instrument returns None for every maturity, its own included. */
  lemma ParRateSingleKnot(mats: seq<Date>, rates: seq<real>, mat: Date)
    requires |mats| == |rates| == 1
    ensures ParRateAt(mats, rates, mat) == Ok(None)
  {
  }

  /** Strictly inside the range of its knots the par curve interpolates exactly as the zero
      curve does. */
  lemma ParRateAgreesInside(mats: seq<Date>, rates: seq<real>, mat: Date)
    requires |mats| == |rates| && StrictlyAscending(mats) && 0 < |mats|
    requires mats[0] < mat <= mats[|mats| - 1]
    ensures ParRateAt(mats, rates, mat) == Ok(Some(ZeroRateAt(mats, rates, mat).value))
  {
    var k := FirstAtOrAbove(mats, mat, 1);
    assert k < |mats|;
  }
}
