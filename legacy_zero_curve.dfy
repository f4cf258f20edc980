/** The older `ZeroCurve` of curves/zero_curve.py.  Its maturities are plain numbers (year
    fractions), since it compares them with 0.  Its `GetZeroRate` has two defects: at or below
    the first knot it returns the first maturity instead of the first rate, and strictly between
    two knots it multiplies a float by the whole list of rates, which raises a TypeError.  The
    module models the method as written and, beside it, the interpolation it evidently intends.
    The ordering, scan and interpolation helpers below have the same shape as those of
    `Interpolation`, which work on day numbers; here they work on real year fractions, and
    Dafny has no type parameter ranging over ordered number types to share them. */
module LegacyCurve {
  import opened Outcomes

  const LengthMessage := "Zero curve and maturities must be equal length"
  const NegativeMessage := "Negative maturity - fail"
  const AboveRangeMessage := "Maturity longer than longest zero maturity"

  predicate StrictlyAscending(mats: seq<real>) {
    forall i, j :: 0 <= i < j < |mats| ==> mats[i] < mats[j]
  }

  /** The first index at or after `from` whose maturity is not below `mat` (|mats| if there
      is none): where the scan of `GetZeroRate` stops. */
  function FirstAtOrAbove(mats: seq<real>, mat: real, from: nat): (k: nat)
    requires from <= |mats|
    ensures from <= k <= |mats|
    ensures forall j :: from <= j < k ==> mats[j] < mat
    ensures k < |mats| ==> mat <= mats[k]
    decreases |mats| - from
  {
    if from == |mats| || mat <= mats[from] then from else FirstAtOrAbove(mats, mat, from + 1)
  }

  /** On strictly ascending knots the scan from `from` stops at knot `i` when asked for that
      knot's own maturity. */
  lemma FirstAtOrAboveKnot(mats: seq<real>, from: nat, i: nat)
    requires StrictlyAscending(mats) && from <= i < |mats|
    ensures FirstAtOrAbove(mats, mats[i], from) == i
  {
  }

  /** On strictly ascending knots the scan from 1 stops at `i` when `mat` lies strictly between
      knots `i - 1` and `i`. */
  lemma FirstAtOrAboveBetween(mats: seq<real>, i: nat, mat: real)
    requires StrictlyAscending(mats) && 1 <= i < |mats| && mats[i - 1] < mat < mats[i]
    ensures FirstAtOrAbove(mats, mat, 1) == i
  {
  }

  /** The straight line through `(m0, r0)` and `(m1, r1)` at `mat`, with maturities that are
      numbers rather than day numbers. */
  function Lerp(m0: real, r0: real, m1: real, r1: real, mat: real): real
    requires m0 != m1
  {
    var f := (mat - m0) / (m1 - m0);
    (1.0 - f) * r0 + f * r1
  }

  /** Strictly between two knots the weight of the right-hand knot is strictly between 0 and
      1, so the line lies between the two knot rates there. */
  lemma LerpBetween(m0: real, r0: real, m1: real, r1: real, mat: real)
    requires m0 < mat < m1
    ensures var f := (mat - m0) / (m1 - m0);
      0.0 < f < 1.0 && Lerp(m0, r0, m1, r1, mat) == (1.0 - f) * r0 + f * r1
    ensures r0 <= r1 ==> r0 <= Lerp(m0, r0, m1, r1, mat) <= r1
    ensures r1 <= r0 ==> r1 <= Lerp(m0, r0, m1, r1, mat) <= r0
  {
    var num, den := mat - m0, m1 - m0;
    var f := num / den;
    var g := (den - num) / den;
    assert f * den == num && g * den == den - num && 0.0 < g;
    assert (f + g) * den == f * den + g * den;
    assert f + g == 1.0;
    assert 0.0 < f < 1.0;
    assert Lerp(m0, r0, m1, r1, mat) == r0 + f * (r1 - r0);
    if r0 <= r1 {
      assert 0.0 <= f * (r1 - r0) <= r1 - r0;
    } else {
      assert r1 - r0 <= f * (r1 - r0) <= 0.0;
    }
  }

  /** What `GetZeroRate(mat)` does as written: the negative check comes first, even before the
      empty list is noticed; the low end returns a maturity; an interior point that is not a
      knot raises the TypeError of `fac * self.rates`. */
  function WrittenZeroRate(mats: seq<real>, rates: seq<real>, mat: real): (r: Result<real>)
    requires |mats| == |rates|
    ensures r.Ok? ==> 0.0 <= mat && 0 < |mats| && mat <= mats[|mats| - 1]
    ensures r.Ok? ==> (mat <= mats[0] && r.value == mats[0]) ||
                      (exists i :: 1 <= i < |mats| && mats[i] == mat && r.value == rates[i])
  {
    if mat < 0.0 then Err(ValueError(NegativeMessage))
    else if |mats| == 0 then Err(IndexError)
    else if mat > mats[|mats| - 1] then Err(ValueError(AboveRangeMessage))
    else if mat <= mats[0] then Ok(mats[0])
    else
      var k := FirstAtOrAbove(mats, mat, 1);
      if mats[k] == mat then Ok(rates[k]) else Err(TypeError)
  }

  /** What `GetZeroRate(mat)` is evidently meant to return, as the newer curve in
      curves/curves.py does: the first rate at or below the first knot, and the linear
      interpolation of the two neighbouring rates between knots. */
  function IntendedZeroRate(mats: seq<real>, rates: seq<real>, mat: real): (r: Result<real>)
    requires |mats| == |rates|
    ensures r.Err? <==> mat < 0.0 || |mats| == 0 || mats[|mats| - 1] < mat
  {
    if mat < 0.0 then Err(ValueError(NegativeMessage))
    else if |mats| == 0 then Err(IndexError)
    else if mat > mats[|mats| - 1] then Err(ValueError(AboveRangeMessage))
    else if mat <= mats[0] then Ok(rates[0])
    else
      var k := FirstAtOrAbove(mats, mat, 1);
      if mats[k] == mat then Ok(rates[k])
      else Ok(Lerp(mats[k - 1], rates[k - 1], mats[k], rates[k], mat))
  }

  /** The legacy curve: two parallel lists that nothing changes after construction. */
  class ZeroCurve {
    const mats: seq<real>
    const rates: seq<real>

    ghost predicate Valid() {
      |mats| == |rates|
    }

    /** The constructor once the length check has passed. */
    constructor (mats: seq<real>, rates: seq<real>)
      requires |mats| == |rates|
      ensures Valid() && this.mats == mats && this.rates == rates
    {
      this.mats := mats;
      this.rates := rates;
    }

    /** `ZeroCurve(mats, rates)`: a ValueError when the lists differ in length. */
    static method Create(mats: seq<real>, rates: seq<real>) returns (r: Result<ZeroCurve>)
      ensures r.Err? <==> |mats| != |rates|
      ensures r.Err? ==> r.error == ValueError(LengthMessage)
      ensures r.Ok? ==> fresh(r.value) && r.value.Valid() && r.value.mats == mats && r.value.rates == rates
    {
      if |rates| != |mats| {
        return Err(ValueError(LengthMessage));
      }
      var zc := new ZeroCurve(mats, rates);
      return Ok(zc);
    }

    /** `GetZeroRate(mat)`, as written. */
    method GetZeroRate(mat: real) returns (r: Result<real>)
      requires Valid()
      ensures r == WrittenZeroRate(mats, rates, mat)
    {
      if mat < 0.0 {
        return Err(ValueError(NegativeMessage));
      }
      if |mats| == 0 {
        return Err(IndexError);
      }
      if mat > mats[|mats| - 1] {
        return Err(ValueError(AboveRangeMessage));
      }
      if mat <= mats[0] {
        return Ok(mats[0]);
      }
      var prevMat, prevZero := mats[0], rates[0];
      for pos := 1 to |mats|
        invariant prevMat == mats[pos - 1] && prevZero == rates[pos - 1]
        invariant prevMat < mat
        invariant forall j :: 1 <= j < pos ==> mats[j] < mat
      {
        if mats[pos] == mat {
          assert FirstAtOrAbove(mats, mat, 1) == pos;
          return Ok(rates[pos]);
        }
        if mats[pos] > mat {
          assert FirstAtOrAbove(mats, mat, 1) == pos;
          // `fac * self.rates`: a float times a list
          return Err(TypeError);
        }
        prevMat, prevZero := mats[pos], rates[pos];
      }
      assert false;
    }
  }

  // ---------------------------------------------------------------------------
  // The method as written
  // ---------------------------------------------------------------------------

  /** A negative maturity is refused before anything else is looked at, even on an empty curve. */
  lemma NegativeRejectedFirst(mats: seq<real>, rates: seq<real>, mat: real)
    requires |mats| == |rates| && mat < 0.0
    ensures WrittenZeroRate(mats, rates, mat) == Err(ValueError(NegativeMessage))
  {
  }

  /** A maturity after the last knot is refused. */
  lemma WrittenAboveLast(mats: seq<real>, rates: seq<real>, mat: real)
    requires |mats| == |rates| && 0 < |mats| && 0.0 <= mat && mats[|mats| - 1] < mat
    ensures WrittenZeroRate(mats, rates, mat) == Err(ValueError(AboveRangeMessage))
  {
  }

  /** At or below the first knot the answer is the first maturity, whatever the rates are. */
  lemma WrittenLowEndIsMaturity(mats: seq<real>, rates: seq<real>, mat: real)
    requires |mats| == |rates| && 0 < |mats| && 0.0 <= mat <= mats[0] && mat <= mats[|mats| - 1]
    ensures WrittenZeroRate(mats, rates, mat) == Ok(mats[0])
  {
  }

  /** At a knot other than the first, on a strictly ascending curve, the knot's rate. */
  lemma WrittenAtKnot(mats: seq<real>, rates: seq<real>, i: nat)
    requires |mats| == |rates| && StrictlyAscending(mats)
    requires 1 <= i < |mats| && 0.0 <= mats[i]
    ensures WrittenZeroRate(mats, rates, mats[i]) == Ok(rates[i])
  {
    FirstAtOrAboveKnot(mats, 1, i);
  }

  /** Strictly between two neighbouring knots of an ascending curve, a TypeError. */
  lemma WrittenInteriorFails(mats: seq<real>, rates: seq<real>, i: nat, mat: real)
    requires |mats| == |rates| && StrictlyAscending(mats)
    requires 1 <= i < |mats| && 0.0 <= mats[i - 1] < mat < mats[i]
    ensures WrittenZeroRate(mats, rates, mat) == Err(TypeError)
  {
    FirstAtOrAboveBetween(mats, i, mat);
  }

  /** The two defects on a two-knot curve: a maturity before the first knot gets the maturity
      1.0 instead of the rate 0.05, and the midpoint of the knots gets a TypeError instead of
      0.055. */
  lemma WrittenCounterexample()
    ensures WrittenZeroRate([1.0, 2.0], [0.05, 0.06], 0.5) == Ok(1.0)
    ensures IntendedZeroRate([1.0, 2.0], [0.05, 0.06], 0.5) == Ok(0.05)
    ensures WrittenZeroRate([1.0, 2.0], [0.05, 0.06], 1.5) == Err(TypeError)
    ensures IntendedZeroRate([1.0, 2.0], [0.05, 0.06], 1.5) == Ok(0.055)
  {
    assert FirstAtOrAbove([1.0, 2.0], 1.5, 1) == 1;
  }

  // ---------------------------------------------------------------------------
  // The intended method
  // ---------------------------------------------------------------------------

  /** Flat below the range: every maturity from 0 up to the first knot gets the first rate. */
  lemma IntendedFlatBelow(mats: seq<real>, rates: seq<real>, mat: real)
    requires |mats| == |rates| && 0 < |mats| && StrictlyAscending(mats)
    requires 0.0 <= mat <= mats[0]
    ensures IntendedZeroRate(mats, rates, mat) == Ok(rates[0])
  {
    assert mats[0] <= mats[|mats| - 1];
  }

  /** Exact at every knot, the first one included. */
  lemma IntendedAtKnot(mats: seq<real>, rates: seq<real>, i: nat)
    requires |mats| == |rates| && StrictlyAscending(mats)
    requires i < |mats| && 0.0 <= mats[i]
    ensures IntendedZeroRate(mats, rates, mats[i]) == Ok(rates[i])
  {
    assert mats[i] <= mats[|mats| - 1];
    if i > 0 {
      FirstAtOrAboveKnot(mats, 1, i);
    }
  }

  /** Strictly between two knots, a weighted mean of the two neighbouring rates, so between them. */
  lemma IntendedBetweenKnots(mats: seq<real>, rates: seq<real>, i: nat, mat: real)
    requires |mats| == |rates| && StrictlyAscending(mats)
    requires 1 <= i < |mats| && 0.0 <= mats[i - 1] < mat < mats[i]
    ensures var f := (mat - mats[i - 1]) / (mats[i] - mats[i - 1]);
      0.0 < f < 1.0 &&
      IntendedZeroRate(mats, rates, mat) == Ok((1.0 - f) * rates[i - 1] + f * rates[i])
    ensures var r := IntendedZeroRate(mats, rates, mat).value;
      (rates[i - 1] <= rates[i] ==> rates[i - 1] <= r <= rates[i]) &&
      (rates[i] <= rates[i - 1] ==> rates[i] <= r <= rates[i - 1])
  {
    assert mats[i] <= mats[|mats| - 1];
    FirstAtOrAboveBetween(mats, i, mat);
    LerpBetween(mats[i - 1], rates[i - 1], mats[i], rates[i], mat);
  }

  /** The two versions agree wherever the written one does not hit a defect: on every error it
      raises other than the TypeError, and at every knot after the first. */
  lemma WrittenAgreesOffDefects(mats: seq<real>, rates: seq<real>, mat: real)
    requires |mats| == |rates| && StrictlyAscending(mats)
    requires mat < 0.0 || |mats| == 0 || mats[|mats| - 1] < mat ||
             (mats[0] < mat && exists i :: 1 <= i < |mats| && mats[i] == mat)
    ensures WrittenZeroRate(mats, rates, mat) == IntendedZeroRate(mats, rates, mat)
  {
  }
}
