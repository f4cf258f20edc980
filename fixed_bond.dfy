/** The construction of a fixed-rate bond (bond/fixed_bond.py, with the two fields its base
    class in bond/bond.py sets): normalising the coupon and day count, parsing the first
    payment date, and laying out the cash-flow schedule with an optional leading stub. */
module Bonds {
  import opened Outcomes
  import opened Dates

  /** One `(date, amount)` entry of a bond's schedule. */
  datatype CashFlow = CashFlow(date: Date, amount: real)

  /** `createCashFlows(start, freq, mat, cpn, par)`: the regular schedule, generated by a
      library routine this model does not look into. */
  type ScheduleGenerator = (Date, real, Date, real, real) -> seq<CashFlow>

  /** `cumPresentValue(trade_dt, yld, cash_flows, freq, cont)`, likewise not looked into. */
  type PresentValue = (Date, real, seq<CashFlow>, real, bool) -> real

  const DefaultDayCount := "ACT/ACT"

  /** `dcc or "ACT/ACT"`: the given convention unless it is None or empty. */
  function DayCount(dcc: Option<string>): (d: string)
    ensures d != ""
    ensures dcc.Some? && dcc.value != "" ==> d == dcc.value
    ensures dcc.None? || dcc.value == "" ==> d == DefaultDayCount
  {
    match dcc
    case Some(s) => if s != "" then s else DefaultDayCount
    case None => DefaultDayCount
  }

  /** `cpn / 100 if cpn else 0`: a coupon quoted in percent, as a decimal rate; None (like 0)
      gives 0. */
  function CouponRate(cpn: Option<real>): (c: real)
    ensures cpn.Some? ==> 100.0 * c == cpn.value
    ensures cpn.None? ==> c == 0.0
  {
    match cpn
    case Some(p) => if p != 0.0 then p / 100.0 else 0.0
    case None => 0.0
  }

  /** The schedule a bond starts with: with a first payment date, a stub flow of one regular
      coupon on that date ahead of the schedule generated from it; otherwise the schedule
      generated from the issue date. */
  function Schedule(firstPay: Option<Date>, issueDt: Date, freq: real, matDt: Date, cpn: real, par: real,
                    createCashFlows: ScheduleGenerator): (flows: seq<CashFlow>)
    ensures firstPay.None? ==> flows == createCashFlows(issueDt, freq, matDt, cpn, par)
    ensures firstPay.Some? ==>
      var generated := createCashFlows(firstPay.value, freq, matDt, cpn, par);
      |flows| == |generated| + 1 &&
      flows[0] == CashFlow(firstPay.value, cpn * par * freq) &&
      flows[1..] == generated
  {
    match firstPay
    case Some(d) => [CashFlow(d, cpn * par * freq)] + createCashFlows(d, freq, matDt, cpn, par)
    case None => createCashFlows(issueDt, freq, matDt, cpn, par)
  }

  /** A `FixedRateBond` as its constructor leaves it; nothing changes it afterwards. */
  class FixedRateBond {
    const matDt: Date
    const par: real
    const dcc: string
    const cpn: real
    const payFreq: real
    const issueDt: Date
    const firstPayDt: Option<Date>
    var cashFlows: seq<CashFlow>

    /** The Python constructor once `first_pay_dt` has been parsed (None when it was absent
        or empty); `Create` does the parsing. */
    constructor (matDt: Date, firstPayDt: Option<Date>, freq: real, cpn: Option<real>,
                 dcc: Option<string>, par: real, issueDt: Date, createCashFlows: ScheduleGenerator)
      ensures this.matDt == matDt && this.par == par
      ensures this.dcc == DayCount(dcc) && this.cpn == CouponRate(cpn)
      ensures this.payFreq == freq && this.issueDt == issueDt && this.firstPayDt == firstPayDt
      ensures cashFlows == Schedule(firstPayDt, issueDt, freq, matDt, CouponRate(cpn), par, createCashFlows)
    {
      var rate := CouponRate(cpn);
      var flows: seq<CashFlow>;
      if firstPayDt.Some? {
        var d := firstPayDt.value;
        flows := createCashFlows(d, freq, matDt, rate, par);
        flows := [CashFlow(d, rate * par * freq)] + flows;
        // The schedule's own description of its stub and its tail, element by element.
        ghost var spec := Schedule(firstPayDt, issueDt, freq, matDt, rate, par, createCashFlows);
        assert |flows| == |spec| && flows[0] == spec[0] && flows[1..] == spec[1..];
        assert flows == [flows[0]] + flows[1..] && spec == [spec[0]] + spec[1..];
      } else {
        flows := createCashFlows(issueDt, freq, matDt, rate, par);
      }
      this.matDt := matDt;
      this.par := par;
      this.dcc := DayCount(dcc);
      this.cpn := rate;
      this.payFreq := freq;
      this.issueDt := issueDt;
      this.firstPayDt := firstPayDt;
      cashFlows := flows;
    }

    /** `FixedRateBond(mat_dt, first_pay_dt, freq, cpn, dcc, par, issue_dt)`: raises the
        ValueError of `int()` or `datetime.date` when a non-empty `first_pay_dt` is not a
        date in `YYYY-MM-DD` form. */
    static method Create(matDt: Date, firstPayDt: Option<string>, freq: real, cpn: Option<real>,
                         dcc: Option<string>, par: real, issueDt: Date, createCashFlows: ScheduleGenerator)
      returns (r: Result<FixedRateBond>)
      ensures var given := firstPayDt.Some? && firstPayDt.value != "";
        (r.Err? <==> given && ParseIsoDate(firstPayDt.value).Err?) &&
        (r.Err? ==> r.error == ParseIsoDate(firstPayDt.value).error) &&
        (r.Ok? ==> (fresh(r.value) &&
                    r.value.firstPayDt == (if given then Some(ParseIsoDate(firstPayDt.value).value) else None)))
      ensures r.Ok? ==> r.value.matDt == matDt && r.value.par == par && r.value.payFreq == freq
      ensures r.Ok? ==> r.value.dcc == DayCount(dcc) && r.value.cpn == CouponRate(cpn) && r.value.issueDt == issueDt
      ensures r.Ok? ==>
        r.value.cashFlows == Schedule(r.value.firstPayDt, issueDt, freq, matDt, CouponRate(cpn), par, createCashFlows)
    {
      var firstPay: Option<Date> := None;
      if firstPayDt.Some? && firstPayDt.value != "" {
        var parsed := ParseIsoDate(firstPayDt.value);
        if parsed.Err? {
          return Err(parsed.error);
        }
        firstPay := Some(parsed.value);
      }
      var bond := new FixedRateBond(matDt, firstPay, freq, cpn, dcc, par, issueDt, createCashFlows);
      return Ok(bond);
    }

    /** `getPrice(yld, trade_dt, cont)`: the cumulative present value of the schedule, always
        discretely compounded. */
    function GetPrice(yld: real, tradeDt: Date, cont: bool, cumPresentValue: PresentValue): (price: real)
      reads this
      ensures price == cumPresentValue(tradeDt, yld, cashFlows, payFreq, false)
    {
      cumPresentValue(tradeDt, yld, cashFlows, payFreq, false)
    }
  }

  /** The `cont` argument of `getPrice` has no effect: continuous compounding is never used. */
  lemma PriceIgnoresCont(bond: FixedRateBond, yld: real, tradeDt: Date, cumPresentValue: PresentValue)
    ensures bond.GetPrice(yld, tradeDt, true, cumPresentValue) == bond.GetPrice(yld, tradeDt, false, cumPresentValue)
    ensures bond.GetPrice(yld, tradeDt, false, cumPresentValue)
         == cumPresentValue(tradeDt, yld, bond.cashFlows, bond.payFreq, false)
  {
  }

  /** A bond with a first payment date has exactly one more flow than the regular schedule,
      the stub, dated on the first payment date and paying one regular coupon. */
  lemma StubScheduleShape(firstPay: Date, issueDt: Date, freq: real, matDt: Date, cpn: real, par: real,
                          createCashFlows: ScheduleGenerator, i: nat)
    requires i < |createCashFlows(firstPay, freq, matDt, cpn, par)|
    ensures var flows := Schedule(Some(firstPay), issueDt, freq, matDt, cpn, par, createCashFlows);
      flows[i + 1] == createCashFlows(firstPay, freq, matDt, cpn, par)[i] &&
      flows[0].date == firstPay && flows[0].amount == cpn * par * freq
  {
  }
}
