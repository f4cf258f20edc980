# Term-structure curves and fixed-rate bond construction

A Dafny model of the interest-rate curve objects of a small fixed-income library, and of
how its fixed-rate bond is constructed.

- **Zero curve** (`curves/curves.py`). Two parallel lists: maturity dates and zero (spot)
  rates.
  - The constructor checks that the two lists have the same length.
  - `addRate` appends one knot.
  - `getZeroRate` interpolates linearly between knots. It is flat below the first knot and
    raises above the last one.
  - `getDF` turns the zero rate into a discount factor.
  - `createFwdCurve` builds a forward curve over the contiguous intervals from the trade date
    to each knot.
- **Forward curve**. Intervals `(start, end)` with a rate each. `createSpotCurve` compounds
  the forward rates back into a zero curve, one knot per interval end.
- **Par curve**. Each instrument's maturity paired with its yield at a quoted price.
  `getParRate` runs the zero curve's scan without its range guards.
- **Legacy zero curve** (`curves/zero_curve.py`). An older `GetZeroRate`. It refuses negative
  maturities and has two defects, listed under Findings.
- **Fixed-rate bond** (`bond/fixed_bond.py`, with the two fields set in `bond/bond.py`). The
  constructor does these things:
  - it turns a percent coupon into a decimal;
  - it defaults the day count;
  - it parses a `YYYY-MM-DD` first-payment date with string slicing, `int()` and
    `datetime.date`;
  - it lays out the cash-flow schedule, putting a stub flow first when there is a first
    payment date.

  `getPrice` delegates to a present-value routine.

Modelling choices:

- Dates are day numbers, the value of Python's `date.toordinal()`. Comparing and subtracting
  them is therefore exact.
- Rates are `real`.
- Python exceptions are values of `Outcomes.PyError`, returned in a `Result`.
- Python `None` is `Option.None`.
- Some library routines are not part of this model. Each one is a function-valued parameter
  with no assumed property:
  - `get_year_deltas`, as `YearFraction`;
  - float `**`, as `Power`;
  - `calcDiscountFactor`;
  - `createCashFlows`, as `ScheduleGenerator`;
  - `cumPresentValue`, as `PresentValue`;
  - the instruments' `getYield`, as `YieldOf`.
- Classes and what becomes of them:
  - `ZeroCurve` and `FwdCurve` are classes whose list fields `AddRate` reassigns.
  - `ParCurve`, the legacy `ZeroCurve` and `FixedRateBond` are classes whose fields are set
    once. The bond's `cashFlows` is the one exception.
- Each raising Python constructor becomes two members:
  - a Dafny `constructor` for its success path;
  - a `static method Create` that returns the ValueError instead.
- The scanning loops are methods proved equal to specification functions: `ZeroRateAt`,
  `ParRateAt`, `WrittenZeroRate`, `ForwardRates` and `SpotRates`. The properties of those
  functions are proved as lemmas.

Files:

- `outcomes.dfy`: the exceptions, `Result` and `Option`.
- `dates.dfy`: the calendar, `int()`, and the date parsing with its inverse.
- `interpolation.dfy`: the interpolation of the zero and par curves.
- `curves.dfy`: the three curve classes and the forward/spot conversions.
- `legacy_zero_curve.dfy`: the older zero curve.
- `fixed_bond.dfy`: the bond.

## Model

| member | source | states |
|---|---|---|
| Curves.ZeroCurve.constructor | curves/curves.py:35-36 | the curve holds exactly the given maturities and rates, of equal length |
| Curves.ZeroCurve.Create | curves/curves.py:33-36 | raises ValueError("Zero curve and maturities must be equal length") exactly when the lengths differ; otherwise a fresh curve with those lists |
| Curves.ZeroCurve.AddRate | curves/curves.py:38-40 | appends exactly one maturity and one rate at the end, earlier entries unchanged; the equal-length invariant holds after exactly when it held before |
| Curves.ZeroCurve.GetZeroRate | curves/curves.py:50-66 | the loop returns or raises exactly what `ZeroRateAt` specifies for the stored lists |
| Interpolation.ZeroRateAt | curves/curves.py:50-66 | raises exactly when the curve is empty (IndexError) or `mat` is after the last knot (ValueError) |
| Interpolation.FirstAtOrAbove | curves/curves.py:59-62 | the scan stops at the first knot from `from` on that is not before `mat`: every skipped knot is before it |
| Interpolation.ZeroRateAboveLast | curves/curves.py:50-51 | after the last knot: ValueError("Maturity longer than longest zero maturity") |
| Interpolation.ZeroRateFlatBelow | curves/curves.py:52-53 | on ascending knots, at or below the first knot: the first rate |
| Interpolation.ZeroRateAtKnot | curves/curves.py:59-61 | on strictly ascending knots, at knot i: `rates[i]`, for every i |
| Interpolation.ZeroRateBetweenKnots | curves/curves.py:62-64 | strictly between knots i-1 and i: `(1-f)*rates[i-1] + f*rates[i]` with `0 < f < 1`, so between the two rates |
| Interpolation.ZeroRateMidpoint | curves/curves.py:62-64 | halfway between two knots: the average of their rates |
| Interpolation.LerpBetween | curves/curves.py:63-64 | the interpolation weight is strictly between 0 and 1 inside a segment, and the value lies between the end rates |
| Interpolation.LerpMidpoint | curves/curves.py:63-64 | the interpolation at a segment's midpoint is the mean of its end rates |
| Interpolation.FirstAtOrAboveKnot | curves/curves.py:59-61 | on strictly ascending knots, the scan asked for knot i's own maturity stops at i |
| Interpolation.FirstAtOrAboveBetween | curves/curves.py:59-62 | on ascending knots, the scan for a maturity strictly inside segment i stops at i |
| Curves.ZeroCurve.GetDF | curves/curves.py:75-77 | raises exactly when the zero-rate lookup raises, with the same exception |
| Curves.DiscountFactorAtKnot | curves/curves.py:75-77 | at a knot: `calcDiscountFactor(yearFrac(trade_dt, mats[i]), rates[i])` |
| Curves.DiscountFactorAboveLast | curves/curves.py:75-77 | after the last knot: the zero-rate ValueError, not a discount factor |
| Curves.ZeroCurve.CreateFwdCurve | curves/curves.py:83-100 | IndexError on an empty curve; ZeroDivisionError exactly when some divisor `(1+prev_rate)**y_mat` is 0; otherwise a fresh curve whose intervals are `ForwardIntervals` and rates `ForwardRates` |
| Curves.ForwardRate | curves/curves.py:94-96 | the forward rate f of a segment satisfies (1 + f) · (1 + y_spot)^y = (1 + x_spot)^x: growing at the earlier spot rate and then at f equals growing at the later spot rate |
| Curves.ForwardGrow | curves/curves.py:91-97 | one loop step appends the interval `(mats[n-1], mats[n])` and that segment's forward rate |
| Curves.ForwardStop | curves/curves.py:96 | a zero divisor at any segment makes the whole conversion undefined |
| Curves.ForwardIntervalsContiguous | curves/curves.py:86-97 | one interval per knot; the first starts at the trade date; interval i ends at knot i, where interval i+1 starts |
| Curves.FwdCurve.constructor | curves/curves.py:121-122 | the curve holds exactly the given intervals and rates, of equal length |
| Curves.FwdCurve.Create | curves/curves.py:119-122 | raises ValueError("Fwd curve and maturities must be equal length") exactly when the lengths differ |
| Curves.FwdCurve.AddRate | curves/curves.py:124-126 | appends exactly one interval and one rate at the end, earlier entries unchanged, equal lengths preserved |
| Curves.FwdCurve.CreateSpotCurve | curves/curves.py:133-150 | IndexError on an empty curve; otherwise succeeds exactly when `SpotRates` does (ZeroDivisionError when a step's year fractions sum to 0); the knots are the interval ends and the rates are `SpotRates` |
| Curves.SpotRates | curves/curves.py:141-149 | when defined, one rate per interval, the first being the first forward rate; its only failure is ZeroDivisionError |
| Curves.SpotRatesGrow | curves/curves.py:143-147 | one loop step appends the compounded rate of the previous spot rate and the next forward rate |
| Curves.SpotRatesStop | curves/curves.py:146 | a zero year-fraction sum at any step makes the whole conversion raise |
| Curves.SpotRatesErrPersists | curves/curves.py:141-149 | once a step fails, every longer conversion fails |
| Curves.SpotKnotsPrefix | curves/curves.py:147 | each step adds the end of the current interval as the next knot |
| Curves.SpotKnotsOfForwardIntervals | curves/curves.py:147 | the ends of the forward intervals are exactly the zero knots they were built from |
| Curves.FirstRateRoundTrip | curves/curves.py:86 | the first rate is carried unchanged into the forward curve and back into the spot curve |
| Curves.ForwardThenSpot | utils/test_funcs.py:51-52 | `zc.createFwdCurve(t).createSpotCurve(t)` gives back exactly the original maturities and the original first rate, or IndexError on an empty curve |
| Curves.ParMaturities | curves/curves.py:173 | `mats[i]` is the maturity of instrument i |
| Curves.ParYields | curves/curves.py:172 | `rates[i]` is the yield of instrument i at price i |
| Curves.ParCurve.constructor | curves/curves.py:171-175 | stores the trade date, instruments and prices; maturities and yields instrument by instrument, all of equal length |
| Curves.ParCurve.Create | curves/curves.py:169-175 | raises ValueError("Par curve and maturities must be equal length") exactly when the instrument and price lists differ in length |
| Curves.ParCurve.GetParRate | curves/curves.py:186-196 | the loop returns or raises exactly what `ParRateAt` specifies |
| Interpolation.ParRateAt | curves/curves.py:186-196 | the only failures are IndexError on an empty curve and ZeroDivisionError when the first two knots coincide |
| Interpolation.ParRateAtKnot | curves/curves.py:190-191 | on strictly ascending knots, at knot i >= 1: `rates[i]` |
| Interpolation.ParRateAtFirstKnot | curves/curves.py:192-194 | at the first knot of a strictly ascending curve with two or more knots: `rates[0]` |
| Interpolation.ParRateBelowFirst | curves/curves.py:192-194 | below the first knot the first segment is extended: the weight is negative and the value is the line through the first two knots |
| Interpolation.ParRateAboveLast | curves/curves.py:189-196 | after the last knot the loop falls through: None, not an error |
| Interpolation.ParRateSingleKnot | curves/curves.py:186-196 | on a one-knot curve: None for every maturity |
| Interpolation.ParRateAgreesInside | curves/curves.py:186-196 | after the first knot and up to the last, the par scan and the zero scan give the same rate |
| LegacyCurve.ZeroCurve.constructor | curves/zero_curve.py:22-23 | the curve holds exactly the given maturities and rates, of equal length |
| LegacyCurve.ZeroCurve.Create | curves/zero_curve.py:20-23 | raises ValueError("Zero curve and maturities must be equal length") exactly when the lengths differ |
| LegacyCurve.ZeroCurve.GetZeroRate | curves/zero_curve.py:33-51 | the loop returns or raises exactly what `WrittenZeroRate` specifies |
| LegacyCurve.WrittenZeroRate | curves/zero_curve.py:33-51 | a value only for a non-negative maturity within the last knot; that value is the first maturity at the low end or `rates[i]` at a knot `mats[i]` with i >= 1, never anything interpolated |
| LegacyCurve.FirstAtOrAbove | curves/zero_curve.py:44-47 | the scan stops at the first knot from `from` on that is not below `mat` |
| LegacyCurve.FirstAtOrAboveKnot | curves/zero_curve.py:45-46 | on strictly ascending knots the scan for knot i's maturity stops at i |
| LegacyCurve.FirstAtOrAboveBetween | curves/zero_curve.py:47 | on strictly ascending knots the scan for a maturity inside segment i stops at i |
| LegacyCurve.NegativeRejectedFirst | curves/zero_curve.py:33-34 | a negative maturity raises ValueError("Negative maturity - fail"), even on an empty curve |
| LegacyCurve.WrittenAboveLast | curves/zero_curve.py:35-36 | after the last knot: ValueError("Maturity longer than longest zero maturity") |
| LegacyCurve.WrittenLowEndIsMaturity | curves/zero_curve.py:37-38 | at or below the first knot: the first maturity, whatever the rates |
| LegacyCurve.WrittenAtKnot | curves/zero_curve.py:45-46 | on strictly ascending knots, at knot i >= 1: `rates[i]` |
| LegacyCurve.WrittenInteriorFails | curves/zero_curve.py:47-49 | strictly between two knots: TypeError |
| LegacyCurve.WrittenCounterexample | curves/zero_curve.py:37-49 | on knots [1.0, 2.0] with rates [0.05, 0.06]: 0.5 gives 1.0 where 0.05 is meant, and 1.5 gives TypeError where 0.055 is meant |
| LegacyCurve.IntendedZeroRate | curves/zero_curve.py:33-49 | the corrected lookup raises exactly for a negative maturity, an empty curve or a maturity after the last knot |
| LegacyCurve.IntendedFlatBelow | curves/zero_curve.py:37-38 | corrected: at or below the first knot, the first rate |
| LegacyCurve.IntendedAtKnot | curves/zero_curve.py:45-46 | corrected: exact at every knot, the first included |
| LegacyCurve.IntendedBetweenKnots | curves/zero_curve.py:47-49 | corrected: strictly between knots, `(1-f)*rates[i-1] + f*rates[i]` with `0 < f < 1`, between the two rates |
| LegacyCurve.LerpBetween | curves/zero_curve.py:48-49 | the corrected interpolation weight lies strictly between 0 and 1 and the value between the end rates |
| LegacyCurve.WrittenAgreesOffDefects | curves/zero_curve.py:33-46 | on strictly ascending knots, the written and corrected lookups agree on every error except the TypeError and at every knot after the first |
| Bonds.DayCount | bond/fixed_bond.py:45 | the given convention when it is a non-empty string, otherwise "ACT/ACT"; never empty |
| Bonds.CouponRate | bond/fixed_bond.py:46 | the percent coupon divided by 100; 0 when it is None |
| Bonds.Schedule | bond/fixed_bond.py:50-55 | without a first payment date, the schedule generated from the issue date; with one, a stub of one regular coupon on that date followed by the schedule generated from it |
| Bonds.StubScheduleShape | bond/fixed_bond.py:52-53 | with a first payment date the schedule is one flow longer, and flow i+1 is generated flow i |
| Bonds.FixedRateBond.constructor | bond/fixed_bond.py:44-55 | maturity, par, frequency and issue date are stored unchanged; day count and coupon normalised; cash flows as `Schedule` says |
| Bonds.FixedRateBond.Create | bond/fixed_bond.py:44-55 | raises the parse error exactly when a non-empty first payment date does not parse; otherwise a fresh bond whose first payment date is the parsed one, or None when it was absent or empty |
| Bonds.FixedRateBond.GetPrice | bond/fixed_bond.py:57-73 | the price is the cumulative present value of the bond's own schedule at its payment frequency, always discretely compounded |
| Bonds.PriceIgnoresCont | bond/fixed_bond.py:73 | `getPrice` is the cumulative present value with `cont=False`, whatever `cont` is passed |
| Dates.ParseIsoDate | bond/fixed_bond.py:51 | only ValueError can be raised |
| Dates.ParseIsoString | bond/fixed_bond.py:51 | a valid date written as `YYYY-MM-DD` parses back to that date |
| Dates.ParseIgnoresSeparators | bond/fixed_bond.py:51 | only characters 0-3, 5-6 and 8-9 decide the result |
| Dates.PyInt | bond/fixed_bond.py:51 | `int()` raises only ValueError |
| Dates.PyIntOfPadded | bond/fixed_bond.py:51 | `int()` of a zero-padded decimal is its value |
| Dates.MakeDate | bond/fixed_bond.py:51 | `datetime.date(y, m, d)` succeeds exactly for a valid calendar date, raising ValueError otherwise |
| Dates.Slice | bond/fixed_bond.py:51 | string slicing clips out-of-range bounds: the length and characters of the result |
| Dates.TrimSpaceInfix | bond/fixed_bond.py:51 | `int()` skips its white space (tab, line feed, vertical tab, form feed, carriage return, space) at both ends and nothing else: what it reads is a slice of the input with only such white space outside it |
| Dates.TrimSpace | bond/fixed_bond.py:51 | the part of the input `int()` reads is no longer than the input, has none of `int()`'s white space at either end, and is the input itself when it had none |
| Dates.PyIntSpaceSet | bond/fixed_bond.py:51 | `int()` accepts surrounding spaces and tabs but rejects the separators 0x1C and 0x1F, which `str.strip()` would remove |
| Dates.Ordinal | bond/fixed_bond.py:51 | a date's day number is at least 1 |
| Dates.OrdinalIncreasing | bond/fixed_bond.py:51 | a later calendar date has a larger day number |
| Dates.DaysBeforeYearMonotone | bond/fixed_bond.py:51 | later years start on later day numbers |
| Dates.DaysInMonth | bond/fixed_bond.py:51 | every month has 28 to 31 days |

## Left out

- Library routines that are not part of this model are parameters whose values are not
  constrained: `get_year_deltas`, `calcDiscountFactor`, `createCashFlows`, `cumPresentValue`
  and `getYield`. So is float `**`. Nothing about year fractions, schedule contents, yields
  or the numeric value of compounding is proved.
- Curves.FirstRateRoundTrip: only the maturities and the first rate are proved to survive the
  round trip. Later rates do not in general: `createFwdCurve` does not annualise a forward
  rate over its interval, while `createSpotCurve` raises it to the interval's length.
- Floating point is modelled by exact reals: rounding, overflow, infinities and NaN are not
  modelled. Python's `**` returning a complex number for a negative base is not modelled
  either.
- Python's `ZeroDivisionError` from `0.0 ** negative` inside `**` is not modelled, because
  `Power` is total. Only the explicit divisions raise it.
- Curves.ZeroCurve.CreateFwdCurve: the ZeroDivisionError on a zero divisor
  (`curves/curves.py:96`) takes the year fractions from `get_year_deltas` to be plain Python
  floats. If they are NumPy `float64` values, the division gives an infinity or NaN with a
  warning instead, and the loop goes on. That outcome is not modelled.
- Curves.FwdCurve.CreateSpotCurve: likewise, the ZeroDivisionError on `1 / (prev_date_diff +
  mat_diff)` (`curves/curves.py:146`) takes the year fractions to be plain Python floats. The
  NumPy `float64` outcome, an infinity with a warning, is not modelled.
- The curves keep the caller's lists, and `addRate` appends to them in place. Aliasing
  between a curve and lists the caller still holds is not modelled: each curve owns its
  sequences.
- Dates are calendar days. The time of day that a `datetime` carries is not modelled.
- Dates.PyInt: the ValueError carries the fixed text "invalid literal for int() with base
  10". CPython's message also quotes the offending literal, and that part is not modelled.
- Dates.MakeDate: the ValueError texts are fixed strings. CPython's year message names the
  year ("year 0 is out of range"), and its wording differs between Python versions. Only the
  exception kind and which check fails are modelled, not the exact text.
- Bonds.FixedRateBond.Create: without a first payment date, `bond/fixed_bond.py:50-55` never
  sets `_first_pay_dt`, so reading that attribute afterwards raises AttributeError. The model
  stores `None` in `firstPayDt` instead; the missing attribute is not modelled.
- Dates.PyInt: only ASCII input is modelled. Unicode digits and white space, which Python's
  `int()` also accepts, are not.
- Default arguments evaluated once at import time are not modelled, such as `now()` and
  `today()` in the bond constructor and `getPrice`. Callers pass every argument.
- The name `datetime` used at `bond/fixed_bond.py:51` comes from a star import. It is taken
  to be the standard `datetime` module.
- A first payment date given as something other than a string, for example a date object, is
  not modelled. Slicing it would raise a TypeError.
- `getYield` is defined on neither `FixedRateBond` nor `Bond`, so building a `ParCurve` from
  these bonds would raise AttributeError. The model takes the yield function as a
  parameter.
- Maturities are taken to be all of one kind, all `date`s or all `datetime`s. Python raises a
  TypeError when it compares a `date` with a `datetime`, and that error is not modelled.
- Monte Carlo models (`dx/models`) and the print-only test driver are not part of this model.
  Only the driver's forward-then-spot round trip is stated, as `Curves.ForwardThenSpot`.
- The code checks less than a reader might expect, and the model follows it:
  - `createSpotCurve` does not check that the intervals are contiguous and raises no
    discontinuity error;
  - `getParRate` has no range guards and returns `None` above the last knot;
  - length mismatches raise a plain ValueError;
  - the bond constructor does not check that maturity is after issue.

## Findings

| source | as written | input that shows it | evidently intended | confidence | as-written member | corrected member |
|---|---|---|---|---|---|---|
| curves/zero_curve.py:37-38 | returns `self.mats[0]`, a maturity, at or below the first knot | knots [1.0, 2.0], rates [0.05, 0.06], maturity 0.5 gives 1.0 | return `self.rates[0]` (0.05), as `curves/curves.py:52-53` does | high, not executed | LegacyCurve.WrittenLowEndIsMaturity | LegacyCurve.IntendedFlatBelow |
| curves/zero_curve.py:49 | `fac*self.rates` multiplies a float by the whole list, a TypeError | knots [1.0, 2.0], rates [0.05, 0.06], maturity 1.5 raises TypeError | `fac*self.rates[pos]`, giving 0.055 | high, not executed | LegacyCurve.WrittenCounterexample | LegacyCurve.IntendedBetweenKnots |
