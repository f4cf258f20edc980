/** The term-structure classes of curves/curves.py: a zero (spot) curve, a forward curve and
    a par curve, each a pair of parallel lists of maturities and rates. */
module Curves {
  import opened Outcomes
  import opened Dates
  import opened Interpolation
  import Bonds

  const ZeroLengthMessage := "Zero curve and maturities must be equal length"
  const FwdLengthMessage := "Fwd curve and maturities must be equal length"
  const ParLengthMessage := "Par curve and maturities must be equal length"

  /** `get_year_deltas([start, end])[-1]`: the year fraction from `start` to `end`, computed
      by a library routine this model does not look into. */
  type YearFraction = (Date, Date) -> real

  /** Python's `base ** exponent` on floats, left uninterpreted. */
  type Power = (real, real) -> real

  // ---------------------------------------------------------------------------
  // ZeroCurve -> FwdCurve, as functions of the knot lists
  // ---------------------------------------------------------------------------

  /** The intervals of the forward curve built from zero knots `mats`: from the trade date to
      the first knot, then from each knot to the next. */
  function ForwardIntervals(tradeDt: Date, mats: seq<Date>): (ivs: seq<(Date, Date)>)
  {
    seq(|mats|, i requires 0 <= i < |mats| => if i == 0 then (tradeDt, mats[0]) else (mats[i - 1], mats[i]))
  }

  /** `(1 + prev_rate)**y_mat` for the segment ending at knot `i`, the divisor of the forward rate. */
  function ForwardDivisor(tradeDt: Date, mats: seq<Date>, rates: seq<real>, i: nat,
                          yearFraction: YearFraction, pow: Power): real
    requires 1 <= i < |mats| == |rates|
  {
    pow(1.0 + rates[i - 1], yearFraction(tradeDt, mats[i - 1]))
  }

  /** `(1 + x_spot)**x_mat / (1 + prev_rate)**y_mat - 1`: the rate over a segment, from the
      spot rates `prevRate` and `xSpot` of its two ends and their year fractions `yMat` and
      `xMat` from the trade date. */
  function ForwardRate(prevRate: real, yMat: real, xSpot: real, xMat: real, pow: Power): (f: real)
    requires pow(1.0 + prevRate, yMat) != 0.0
    ensures (1.0 + f) * pow(1.0 + prevRate, yMat) == pow(1.0 + xSpot, xMat)
  {
    pow(1.0 + xSpot, xMat) / pow(1.0 + prevRate, yMat) - 1.0
  }

  /** The forward rate of the segment ending at knot `i`. */
  function ForwardRateAt(tradeDt: Date, mats: seq<Date>, rates: seq<real>, i: nat,
                         yearFraction: YearFraction, pow: Power): real
    requires 1 <= i < |mats| == |rates|
    requires ForwardDivisor(tradeDt, mats, rates, i, yearFraction, pow) != 0.0
  {
    ForwardRate(rates[i - 1], yearFraction(tradeDt, mats[i - 1]), rates[i], yearFraction(tradeDt, mats[i]), pow)
  }

  /** No segment among the first `n` knots divides by zero. */
  predicate ForwardDefined(tradeDt: Date, mats: seq<Date>, rates: seq<real>, n: nat,
                           yearFraction: YearFraction, pow: Power)
    requires n <= |mats| == |rates|
  {
    forall i :: 1 <= i < n ==> ForwardDivisor(tradeDt, mats, rates, i, yearFraction, pow) != 0.0
  }

  /** The forward rates of the first `n` segments: the first zero rate for the segment from the
      trade date, then the compounded forward rate of each later segment. */
  function ForwardRates(tradeDt: Date, mats: seq<Date>, rates: seq<real>, n: nat,
                        yearFraction: YearFraction, pow: Power): (fwd: seq<real>)
    requires n <= |mats| == |rates|
    requires ForwardDefined(tradeDt, mats, rates, n, yearFraction, pow)
  {
    seq(n, i requires 0 <= i < n =>
      if i == 0 then rates[0] else ForwardRateAt(tradeDt, mats, rates, i, yearFraction, pow))
  }

  /** One more segment: its interval runs from the previous knot to the next, and its rate is
      the forward rate of that segment, when the segment's divisor is not zero. */
  lemma ForwardGrow(tradeDt: Date, mats: seq<Date>, rates: seq<real>, n: nat,
                    yearFraction: YearFraction, pow: Power)
    requires 1 <= n < |mats| == |rates|
    requires ForwardDefined(tradeDt, mats, rates, n, yearFraction, pow)
    requires ForwardDivisor(tradeDt, mats, rates, n, yearFraction, pow) != 0.0
    ensures ForwardDefined(tradeDt, mats, rates, n + 1, yearFraction, pow)
    ensures ForwardRates(tradeDt, mats, rates, n + 1, yearFraction, pow)
         == ForwardRates(tradeDt, mats, rates, n, yearFraction, pow)
            + [ForwardRateAt(tradeDt, mats, rates, n, yearFraction, pow)]
    ensures ForwardIntervals(tradeDt, mats[..n + 1]) == ForwardIntervals(tradeDt, mats[..n]) + [(mats[n - 1], mats[n])]
  {
  }

  /** A zero divisor at any segment leaves the whole forward curve undefined. */
  lemma ForwardStop(tradeDt: Date, mats: seq<Date>, rates: seq<real>, n: nat,
                    yearFraction: YearFraction, pow: Power)
    requires 1 <= n < |mats| == |rates|
    requires ForwardDivisor(tradeDt, mats, rates, n, yearFraction, pow) == 0.0
    ensures !ForwardDefined(tradeDt, mats, rates, |mats|, yearFraction, pow)
  {
  }

  // ---------------------------------------------------------------------------
  // FwdCurve -> ZeroCurve, as functions of the interval and rate lists
  // ---------------------------------------------------------------------------

  /** The knots of the spot curve built from forward intervals: the end of each interval. */
  function SpotKnots(ivs: seq<(Date, Date)>): (mats: seq<Date>)
  {
    seq(|ivs|, i requires 0 <= i < |ivs| => ivs[i].1)
  }

  /** The rate that, over `prevDateDiff + matDiff` years, grows as much as `prevRate` over
      `prevDateDiff` years followed by `fwdRate` over `matDiff` years. */
  function Compounded(prevRate: real, prevDateDiff: real, fwdRate: real, matDiff: real, pow: Power): real
    requires prevDateDiff + matDiff != 0.0
  {
    pow(pow(1.0 + prevRate, prevDateDiff) * pow(1.0 + fwdRate, matDiff), 1.0 / (prevDateDiff + matDiff)) - 1.0
  }

  /** The spot rate at the end of interval `i`, compounded from the previous spot rate over the
      time to the previous end and the forward rate over interval `i`'s own length; raises
      ZeroDivisionError when those two year fractions add up to 0. */
  function SpotStep(tradeDt: Date, ivs: seq<(Date, Date)>, rates: seq<real>, i: nat, prevRate: real,
                    yearFraction: YearFraction, pow: Power): Result<real>
    requires 1 <= i < |ivs| == |rates|
  {
    var matDiff := yearFraction(ivs[i].0, ivs[i].1);
    var prevDateDiff := yearFraction(tradeDt, ivs[i - 1].1);
    if prevDateDiff + matDiff == 0.0 then Err(ZeroDivisionError)
    else Ok(Compounded(prevRate, prevDateDiff, rates[i], matDiff, pow))
  }

  /** The spot rates at the ends of the first `n` intervals, each built on the one before. */
  function SpotRates(tradeDt: Date, ivs: seq<(Date, Date)>, rates: seq<real>, n: nat,
                     yearFraction: YearFraction, pow: Power): (r: Result<seq<real>>)
    requires 1 <= n <= |ivs| == |rates|
    ensures r.Ok? ==> |r.value| == n && r.value[0] == rates[0]
    ensures r.Err? ==> r.error == ZeroDivisionError
  {
    if n == 1 then Ok([rates[0]])
    else
      var prev :- SpotRates(tradeDt, ivs, rates, n - 1, yearFraction, pow);
      var spot :- SpotStep(tradeDt, ivs, rates, n - 1, prev[n - 2], yearFraction, pow);
      Ok(prev + [spot])
  }

  lemma SpotKnotsPrefix(ivs: seq<(Date, Date)>, n: nat)
    requires n < |ivs|
    ensures SpotKnots(ivs[..n + 1]) == SpotKnots(ivs[..n]) + [ivs[n].1]
  {
  }

  /** One more spot rate: the compounding step applied to the last rate so far, when the
      step's combined year fraction is not zero. */
  lemma SpotRatesGrow(tradeDt: Date, ivs: seq<(Date, Date)>, rates: seq<real>, n: nat,
                      yearFraction: YearFraction, pow: Power)
    requires 1 <= n < |ivs| == |rates|
    requires SpotRates(tradeDt, ivs, rates, n, yearFraction, pow).Ok?
    requires yearFraction(tradeDt, ivs[n - 1].1) + yearFraction(ivs[n].0, ivs[n].1) != 0.0
    ensures var prev := SpotRates(tradeDt, ivs, rates, n, yearFraction, pow).value;
      SpotRates(tradeDt, ivs, rates, n + 1, yearFraction, pow)
        == Ok(prev + [Compounded(prev[n - 1], yearFraction(tradeDt, ivs[n - 1].1), rates[n],
                                 yearFraction(ivs[n].0, ivs[n].1), pow)])
  {
  }

  /** A zero combined year fraction at step `n` makes the whole conversion raise. */
  lemma SpotRatesStop(tradeDt: Date, ivs: seq<(Date, Date)>, rates: seq<real>, n: nat,
                      yearFraction: YearFraction, pow: Power)
    requires 1 <= n < |ivs| == |rates|
    requires SpotRates(tradeDt, ivs, rates, n, yearFraction, pow).Ok?
    requires yearFraction(tradeDt, ivs[n - 1].1) + yearFraction(ivs[n].0, ivs[n].1) == 0.0
    ensures SpotRates(tradeDt, ivs, rates, |ivs|, yearFraction, pow).Err?
  {
    assert SpotRates(tradeDt, ivs, rates, n + 1, yearFraction, pow).Err?;
    SpotRatesErrPersists(tradeDt, ivs, rates, n + 1, |ivs|, yearFraction, pow);
  }

  /** Once a spot rate cannot be computed, no later one can: the first ZeroDivisionError
      stops the whole conversion. */
  lemma {:induction false} SpotRatesErrPersists(tradeDt: Date, ivs: seq<(Date, Date)>, rates: seq<real>,
                                                n: nat, m: nat, yearFraction: YearFraction, pow: Power)
    requires 1 <= n <= m <= |ivs| == |rates|
    requires SpotRates(tradeDt, ivs, rates, n, yearFraction, pow).Err?
    ensures SpotRates(tradeDt, ivs, rates, m, yearFraction, pow).Err?
    decreases m - n
  {
    if n < m {
      SpotRatesErrPersists(tradeDt, ivs, rates, n, m - 1, yearFraction, pow);
    }
  }

  // ---------------------------------------------------------------------------
  // Structural properties of the two conversions
  // ---------------------------------------------------------------------------

  /** The forward intervals are contiguous: each ends where the next begins, the first starts
      at the trade date, and each ends at the zero knot of the same index. */
  lemma ForwardIntervalsContiguous(tradeDt: Date, mats: seq<Date>)
    ensures |ForwardIntervals(tradeDt, mats)| == |mats|
    ensures forall i :: 0 <= i < |mats| ==> ForwardIntervals(tradeDt, mats)[i].1 == mats[i]
    ensures 0 < |mats| ==> ForwardIntervals(tradeDt, mats)[0].0 == tradeDt
    ensures forall i :: 0 <= i < |mats| - 1 ==>
      ForwardIntervals(tradeDt, mats)[i].1 == ForwardIntervals(tradeDt, mats)[i + 1].0
  {
  }

  /** Taking the end of every forward interval gives back the zero knots: converting a zero
      curve to forwards and back reproduces its maturities exactly. */
  lemma SpotKnotsOfForwardIntervals(tradeDt: Date, mats: seq<Date>)
    ensures SpotKnots(ForwardIntervals(tradeDt, mats)) == mats
  {
    ForwardIntervalsContiguous(tradeDt, mats);
  }

  /** The first rate survives both conversions unchanged. */
  lemma FirstRateRoundTrip(tradeDt: Date, mats: seq<Date>, rates: seq<real>,
                           yearFraction: YearFraction, pow: Power)
    requires 0 < |mats| == |rates|
    requires ForwardDefined(tradeDt, mats, rates, |mats|, yearFraction, pow)
    ensures var fwd := ForwardRates(tradeDt, mats, rates, |mats|, yearFraction, pow);
      var spot := SpotRates(tradeDt, ForwardIntervals(tradeDt, mats), fwd, |mats|, yearFraction, pow);
      fwd[0] == rates[0] && (spot.Ok? ==> spot.value[0] == rates[0])
  {
  }

  // ---------------------------------------------------------------------------
  // ZeroCurve
  // ---------------------------------------------------------------------------

  /** A zero (spot) curve: rate `rates[i]` for a cash flow at maturity `mats[i]`. */
  class ZeroCurve {
    var mats: seq<Date>
    var rates: seq<real>

    ghost predicate Valid()
      reads this
    {
      |mats| == |rates|
    }

    /** The success path of the Python constructor; `Create` adds its length check. */
    constructor (mats: seq<Date>, rates: seq<real>)
      requires |mats| == |rates|
      ensures Valid() && this.mats == mats && this.rates == rates
    {
      this.mats := mats;
      this.rates := rates;
    }

    /** `ZeroCurve(mats, rates)`: raises ValueError unless both lists have the same length. */
    static method Create(mats: seq<Date>, rates: seq<real>) returns (r: Result<ZeroCurve>)
      ensures r.Err? <==> |mats| != |rates|
      ensures r.Err? ==> r.error == ValueError(ZeroLengthMessage)
      ensures r.Ok? ==> fresh(r.value) && r.value.Valid() && r.value.mats == mats && r.value.rates == rates
    {
      if |rates| != |mats| {
        return Err(ValueError(ZeroLengthMessage));
      }
      var zc := new ZeroCurve(mats, rates);
      return Ok(zc);
    }

    /** Appends one knot at the end of both lists; nothing else changes. */
    method AddRate(mat: Date, rt: real)
      modifies this
      ensures mats == old(mats) + [mat] && rates == old(rates) + [rt]
      ensures Valid() <==> old(Valid())
    {
      mats := mats + [mat];
      rates := rates + [rt];
    }

    /** `getZeroRate(mat)`: the scan over the knots, returning or raising what `ZeroRateAt` says. */
    method GetZeroRate(mat: Date) returns (r: Result<real>)
      requires Valid()
      ensures r == ZeroRateAt(mats, rates, mat)
    {
      if |mats| == 0 {
        return Err(IndexError);
      }
      if mat > mats[|mats| - 1] {
        return Err(ValueError(AboveRangeMessage));
      }
      if mat <= mats[0] {
        return Ok(rates[0]);
      }
      var prevMat, prevZero := mats[0], rates[0];
      for pos := 1 to |mats|
        invariant prevMat == mats[pos - 1] && prevZero == rates[pos - 1]
        invariant prevMat < mat
        invariant forall j :: 1 <= j < pos ==> mats[j] < mat
      {
        if mats[pos] == mat {
          return Ok(rates[pos]);
        }
        if mats[pos] > mat {
          assert FirstAtOrAbove(mats, mat, 1) == pos;
          var fac := (mat - prevMat) as real / (mats[pos] - prevMat) as real;
          assert (1.0 - fac) * prevZero + fac * rates[pos] == Lerp(prevMat, prevZero, mats[pos], rates[pos], mat);
          return Ok((1.0 - fac) * prevZero + fac * rates[pos]);
        }
        prevMat, prevZero := mats[pos], rates[pos];
      }
      assert false;
    }

    /** `getDF(trade_dt, mat)`: the discount factor for the year fraction to `mat` at the zero
        rate of `mat`; raises whatever the zero-rate lookup raises. */
    function GetDF(tradeDt: Date, mat: Date, yearFraction: YearFraction,
                   calcDiscountFactor: (real, real) -> real): (r: Result<real>)
      reads this
      requires Valid()
      ensures r.Err? <==> ZeroRateAt(mats, rates, mat).Err?
      ensures r.Err? ==> r.error == ZeroRateAt(mats, rates, mat).error
    {
      var rate :- ZeroRateAt(mats, rates, mat);
      Ok(calcDiscountFactor(yearFraction(tradeDt, mat), rate))
    }

    /** `createFwdCurve(trade_dt)`: a new forward curve with one interval per knot, built by
        appending one interval and rate at a time. */
    method CreateFwdCurve(tradeDt: Date, yearFraction: YearFraction, pow: Power) returns (r: Result<FwdCurve>)
      requires Valid()
      ensures r.Ok? <==> 0 < |mats| && ForwardDefined(tradeDt, mats, rates, |mats|, yearFraction, pow)
      ensures r.Err? ==> r.error == (if |mats| == 0 then IndexError else ZeroDivisionError)
      ensures r.Ok? ==> fresh(r.value) && r.value.Valid()
      ensures r.Ok? ==> r.value.mats == ForwardIntervals(tradeDt, mats)
      ensures r.Ok? ==> r.value.rates == ForwardRates(tradeDt, mats, rates, |mats|, yearFraction, pow)
    {
      if |mats| == 0 {
        return Err(IndexError);
      }
      var zs, rs := mats, rates;
      var fc := new FwdCurve([], []);
      fc.AddRate((tradeDt, zs[0]), rs[0]);
      var prevMat, prevRate := zs[0], rs[0];
      for pos := 1 to |zs|
        invariant fresh(fc) && fc.Valid()
        invariant prevMat == zs[pos - 1] && prevRate == rs[pos - 1]
        invariant ForwardDefined(tradeDt, zs, rs, pos, yearFraction, pow)
        invariant fc.mats == ForwardIntervals(tradeDt, zs[..pos])
        invariant fc.rates == ForwardRates(tradeDt, zs, rs, pos, yearFraction, pow)
      {
        var yMat := yearFraction(tradeDt, prevMat);
        var xMat := yearFraction(tradeDt, zs[pos]);
        var xSpot := rs[pos];
        if pow(1.0 + prevRate, yMat) == 0.0 {
          ForwardStop(tradeDt, zs, rs, pos, yearFraction, pow);
          return Err(ZeroDivisionError);
        }
        var fwdRate := ForwardRate(prevRate, yMat, xSpot, xMat, pow);
        ForwardGrow(tradeDt, zs, rs, pos, yearFraction, pow);
        fc.AddRate((prevMat, zs[pos]), fwdRate);
        prevMat, prevRate := zs[pos], xSpot;
      }
      assert zs[..|zs|] == zs;
      return Ok(fc);
    }
  }

  /** At every knot of a strictly ascending curve the discount factor is taken at that knot's
      own rate. */
  lemma DiscountFactorAtKnot(zc: ZeroCurve, tradeDt: Date, i: nat,
                             yearFraction: YearFraction, calcDiscountFactor: (real, real) -> real)
    requires zc.Valid() && StrictlyAscending(zc.mats) && i < |zc.mats|
    ensures zc.GetDF(tradeDt, zc.mats[i], yearFraction, calcDiscountFactor)
         == Ok(calcDiscountFactor(yearFraction(tradeDt, zc.mats[i]), zc.rates[i]))
  {
    ZeroRateAtKnot(zc.mats, zc.rates, i);
  }

  /** Above the last knot no discount factor exists: the lookup raises. */
  lemma DiscountFactorAboveLast(zc: ZeroCurve, tradeDt: Date, mat: Date,
                                yearFraction: YearFraction, calcDiscountFactor: (real, real) -> real)
    requires zc.Valid() && 0 < |zc.mats| && zc.mats[|zc.mats| - 1] < mat
    ensures zc.GetDF(tradeDt, mat, yearFraction, calcDiscountFactor) == Err(ValueError(AboveRangeMessage))
  {
  }

  // ---------------------------------------------------------------------------
  // FwdCurve
  // ---------------------------------------------------------------------------

  /** A forward curve: rate `rates[i]` for the interval `mats[i] = (start, end)`. */
  class FwdCurve {
    var mats: seq<(Date, Date)>
    var rates: seq<real>

    ghost predicate Valid()
      reads this
    {
      |mats| == |rates|
    }

    /** The success path of the Python constructor; `Create` adds its length check. */
    constructor (mats: seq<(Date, Date)>, rates: seq<real>)
      requires |mats| == |rates|
      ensures Valid() && this.mats == mats && this.rates == rates
    {
      this.mats := mats;
      this.rates := rates;
    }

    /** `FwdCurve(mats, rates)`: raises ValueError unless both lists have the same length. */
    static method Create(mats: seq<(Date, Date)>, rates: seq<real>) returns (r: Result<FwdCurve>)
      ensures r.Err? <==> |mats| != |rates|
      ensures r.Err? ==> r.error == ValueError(FwdLengthMessage)
      ensures r.Ok? ==> fresh(r.value) && r.value.Valid() && r.value.mats == mats && r.value.rates == rates
    {
      if |rates| != |mats| {
        return Err(ValueError(FwdLengthMessage));
      }
      var fc := new FwdCurve(mats, rates);
      return Ok(fc);
    }

    /** Appends one interval and its rate at the end of both lists; nothing else changes. */
    method AddRate(mat: (Date, Date), rt: real)
      modifies this
      ensures mats == old(mats) + [mat] && rates == old(rates) + [rt]
      ensures Valid() <==> old(Valid())
    {
      mats := mats + [mat];
      rates := rates + [rt];
    }

    /** `createSpotCurve(trade_dt)`: a new zero curve with one knot per interval, at the
        interval's end, built by appending one knot and rate at a time.  The intervals are not
        checked for contiguity. */
    method CreateSpotCurve(tradeDt: Date, yearFraction: YearFraction, pow: Power) returns (r: Result<ZeroCurve>)
      requires Valid()
      ensures |mats| == 0 ==> r == Err(IndexError)
      ensures 0 < |mats| ==> r.Ok? == SpotRates(tradeDt, mats, rates, |mats|, yearFraction, pow).Ok?
      ensures r.Err? && 0 < |mats| ==> r.error == ZeroDivisionError
      ensures r.Ok? ==> fresh(r.value) && r.value.Valid()
      ensures r.Ok? ==> r.value.mats == SpotKnots(mats)
      ensures r.Ok? ==> r.value.rates == SpotRates(tradeDt, mats, rates, |mats|, yearFraction, pow).value
    {
      if |mats| == 0 {
        return Err(IndexError);
      }
      var ivs, fwd := mats, rates;
      var zc := new ZeroCurve([], []);
      zc.AddRate(ivs[0].1, fwd[0]);
      var prevMat, prevRate := ivs[0].1, fwd[0];
      for pos := 1 to |ivs|
        invariant fresh(zc) && zc.Valid()
        invariant SpotRates(tradeDt, ivs, fwd, pos, yearFraction, pow).Ok?
        invariant zc.rates == SpotRates(tradeDt, ivs, fwd, pos, yearFraction, pow).value
        invariant zc.mats == SpotKnots(ivs[..pos])
        invariant prevMat == ivs[pos - 1].1 && prevRate == zc.rates[pos - 1]
      {
        var matDiff := yearFraction(ivs[pos].0, ivs[pos].1);
        var prevDateDiff := yearFraction(tradeDt, prevMat);
        if prevDateDiff + matDiff == 0.0 {
          SpotRatesStop(tradeDt, ivs, fwd, pos, yearFraction, pow);
          return Err(ZeroDivisionError);
        }
        var spotRate := Compounded(prevRate, prevDateDiff, fwd[pos], matDiff, pow);
        SpotRatesGrow(tradeDt, ivs, fwd, pos, yearFraction, pow);
        zc.AddRate(ivs[pos].1, spotRate);
        SpotKnotsPrefix(ivs, pos);
        prevRate, prevMat := spotRate, ivs[pos].1;
      }
      assert ivs[..|ivs|] == ivs;
      return Ok(zc);
    }
  }

  /** The test driver's round trip: a zero curve converted to forwards and back has exactly the
      original maturities and the original first rate. */
  method ForwardThenSpot(zc: ZeroCurve, tradeDt: Date, yearFraction: YearFraction, pow: Power)
    returns (r: Result<ZeroCurve>)
    requires zc.Valid()
    ensures |zc.mats| == 0 ==> r == Err(IndexError)
    ensures r.Ok? ==> r.value.mats == zc.mats && |r.value.rates| == |zc.rates| > 0
    ensures r.Ok? ==> r.value.rates[0] == zc.rates[0]
  {
    var fc :- zc.CreateFwdCurve(tradeDt, yearFraction, pow);
    r := fc.CreateSpotCurve(tradeDt, yearFraction, pow);
    SpotKnotsOfForwardIntervals(tradeDt, zc.mats);
  }

  // ---------------------------------------------------------------------------
  // ParCurve
  // ---------------------------------------------------------------------------

  /** `inst.getYield(px, trade_dt)`: the yield of an instrument at a quoted price, computed by
      code this model does not look into. */
  type YieldOf = (Bonds.FixedRateBond, real, Date) -> real

  /** `[i._mat_dt for i in insts]`. */
  function ParMaturities(insts: seq<Bonds.FixedRateBond>): (mats: seq<Date>)
    ensures |mats| == |insts|
    ensures forall i :: 0 <= i < |insts| ==> mats[i] == insts[i].matDt
  {
    seq(|insts|, i requires 0 <= i < |insts| => insts[i].matDt)
  }

  /** `[i.getYield(px, trade_dt) for i, px in zip(insts, pxs)]` for lists of equal length. */
  function ParYields(insts: seq<Bonds.FixedRateBond>, pxs: seq<real>, tradeDt: Date, getYield: YieldOf): (ys: seq<real>)
    requires |insts| == |pxs|
    ensures |ys| == |insts|
    ensures forall i :: 0 <= i < |insts| ==> ys[i] == getYield(insts[i], pxs[i], tradeDt)
  {
    seq(|insts|, i requires 0 <= i < |insts| => getYield(insts[i], pxs[i], tradeDt))
  }

  /** A par curve: each instrument's maturity paired with its yield at its quoted price. */
  class ParCurve {
    const tradeDt: Date
    const rates: seq<real>
    const mats: seq<Date>
    const insts: seq<Bonds.FixedRateBond>
    const pxs: seq<real>

    ghost predicate Valid() {
      |mats| == |rates| == |insts| == |pxs|
    }

    /** The success path of the Python constructor; `Create` adds its length check. */
    constructor (insts: seq<Bonds.FixedRateBond>, pxs: seq<real>, tradeDt: Date, getYield: YieldOf)
      requires |insts| == |pxs|
      ensures Valid()
      ensures this.tradeDt == tradeDt && this.insts == insts && this.pxs == pxs
      ensures this.rates == ParYields(insts, pxs, tradeDt, getYield)
      ensures this.mats == ParMaturities(insts)
    {
      this.tradeDt := tradeDt;
      this.rates := ParYields(insts, pxs, tradeDt, getYield);
      this.mats := ParMaturities(insts);
      this.insts := insts;
      this.pxs := pxs;
    }

    /** `ParCurve(insts, pxs, trade_dt)`: raises ValueError unless there is one price per instrument. */
    static method Create(insts: seq<Bonds.FixedRateBond>, pxs: seq<real>, tradeDt: Date, getYield: YieldOf)
      returns (r: Result<ParCurve>)
      ensures r.Err? <==> |insts| != |pxs|
      ensures r.Err? ==> r.error == ValueError(ParLengthMessage)
      ensures r.Ok? ==> fresh(r.value) && r.value.Valid() && r.value.tradeDt == tradeDt
      ensures r.Ok? ==> r.value.insts == insts && r.value.pxs == pxs
      ensures r.Ok? ==> r.value.mats == ParMaturities(insts)
      ensures r.Ok? ==> r.value.rates == ParYields(insts, pxs, tradeDt, getYield)
    {
      if |insts| != |pxs| {
        return Err(ValueError(ParLengthMessage));
      }
      var pc := new ParCurve(insts, pxs, tradeDt, getYield);
      return Ok(pc);
    }

    /** `getParRate(mat)`: the zero curve's scan without its range guards, returning or
        raising what `ParRateAt` says (None when the scan runs off the end). */
    method GetParRate(mat: Date) returns (r: Result<Option<real>>)
      requires Valid()
      ensures r == ParRateAt(mats, rates, mat)
    {
      if |mats| == 0 {
        return Err(IndexError);
      }
      var prevMat, prevPar := mats[0], rates[0];
      for pos := 1 to |mats|
        invariant prevMat == mats[pos - 1] && prevPar == rates[pos - 1]
        invariant forall j :: 1 <= j < pos ==> mats[j] < mat
      {
        if mats[pos] == mat {
          return Ok(Some(rates[pos]));
        }
        if mats[pos] > mat {
          assert FirstAtOrAbove(mats, mat, 1) == pos;
          if mats[pos] == prevMat {
            return Err(ZeroDivisionError);
          }
          var fac := (mat - prevMat) as real / (mats[pos] - prevMat) as real;
          assert (1.0 - fac) * prevPar + fac * rates[pos] == Lerp(prevMat, prevPar, mats[pos], rates[pos], mat);
          return Ok(Some((1.0 - fac) * prevPar + fac * rates[pos]));
        }
        prevMat, prevPar := mats[pos], rates[pos];
      }
      return Ok(None);
    }
  }
}
