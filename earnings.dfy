/** The header figures of the app (App.jsx): the month's and the year's
    estimated earnings, what is left below the income limit, the progress
    bar's percentage and its colour. */
module Earnings {
  import opened Common
  import opened Calendar
  import opened Shifts

  /** A JavaScript number where the arithmetic can leave the reals. */
  datatype JsNumber = Finite(value: real) | PosInf | NegInf | NaN

  /** `Math.floor(calculateTotal(key => key.startsWith(prefix)))`: the
      order-free sum over the keys with that prefix, rounded down. */
  function PrefixTotal(shifts: ShiftMap, order: seq<string>, prefix: string): (t: int)
    requires Lists(order, shifts)
    ensures t as real <= SetTotal(shifts, set k | k in shifts && prefix <= k) < t as real + 1.0
    ensures NonNegative(shifts) ==> t >= 0
  {
    var inPrefix: string -> bool := k => prefix <= k;
    CalculateTotalIsSetTotal(shifts, order, inPrefix);
    assert Accepted(shifts, inPrefix) == set k | k in shifts && prefix <= k;
    CalculateTotal(shifts, order, inPrefix).Floor
  }

  /** The estimated salary of the displayed month (`month` is 1-based). */
  function MonthlyTotal(shifts: ShiftMap, order: seq<string>, year: int, month: int): (t: int)
    requires Lists(order, shifts) && 1 <= month <= 12
    ensures t as real <= SetTotal(shifts, set k | k in shifts && MonthPrefix(year, month) <= k) < t as real + 1.0
  {
    PrefixTotal(shifts, order, MonthPrefix(year, month))
  }

  /** The estimated salary of the displayed calendar year. */
  function AnnualTotal(shifts: ShiftMap, order: seq<string>, year: int): (t: int)
    requires Lists(order, shifts)
    ensures t as real <= SetTotal(shifts, set k | k in shifts && YearPrefix(year) <= k) < t as real + 1.0
  {
    PrefixTotal(shifts, order, YearPrefix(year))
  }

  /** Every key the monthly filter accepts, the annual filter accepts too;
      so with non-negative records the month never earns more than its year. */
  lemma MonthlyAtMostAnnual(shifts: ShiftMap, order: seq<string>, year: int, month: int)
    requires Lists(order, shifts) && 1 <= month <= 12 && NonNegative(shifts)
    ensures 0 <= MonthlyTotal(shifts, order, year, month) <= AnnualTotal(shifts, order, year)
  {
    var mp, yp := MonthPrefix(year, month), YearPrefix(year);
    var inMonth: string -> bool := k => mp <= k;
    var inYear: string -> bool := k => yp <= k;
    CalculateTotalIsSetTotal(shifts, order, inMonth);
    CalculateTotalIsSetTotal(shifts, order, inYear);
    forall k | k in Accepted(shifts, inMonth) ensures k in Accepted(shifts, inYear) {
      MonthPrefixExtendsYearPrefix(k, year, month);
    }
    SetTotalNonNegative(shifts, Accepted(shifts, inMonth));
    SetTotalSubset(shifts, Accepted(shifts, inMonth), Accepted(shifts, inYear));
  }

  /** `settings.incomeLimit - annualEstimatedSalary`; an absent limit
      (`undefined`) makes it NaN. */
  function RemainingIncome(annual: int, limit: Option<real>): (r: JsNumber)
    ensures r.NaN? <==> limit.None?
    ensures r.Finite? ==> r.value == limit.value - annual as real
    ensures r.Finite? && r.value < 0.0 <==> limit.Some? && annual as real > limit.value
  {
    match limit
    case None => NaN
    case Some(l) => Finite(l - annual as real)
  }

  /** JavaScript's `a / b` for a finite `a` and `b`. */
  function Divide(a: real, b: real): (r: JsNumber)
    ensures b != 0.0 ==> r == Finite(a / b)
  {
    if b != 0.0 then Finite(a / b)
    else if a > 0.0 then PosInf
    else if a < 0.0 then NegInf
    else NaN
  }

  /** `x * 100`. */
  function Times100(x: JsNumber): JsNumber {
    match x
    case Finite(v) => Finite(v * 100.0)
    case _ => x
  }

  /** `Math.min(x, 100)`: NaN stays NaN. */
  function MinWith100(x: JsNumber): JsNumber {
    match x
    case Finite(v) => Finite(if v <= 100.0 then v else 100.0)
    case PosInf => Finite(100.0)
    case NegInf => NegInf
    case NaN => NaN
  }

  /** `Math.min((annual / incomeLimit) * 100, 100)`. */
  function ProgressPercentage(annual: int, limit: Option<real>): (p: JsNumber)
    ensures p.Finite? ==> p.value <= 100.0
    ensures !p.PosInf?
    ensures p.NaN? <==> limit.None? || (limit.value == 0.0 && annual == 0)
    ensures limit.Some? && limit.value > 0.0 && annual >= 0 ==>
      p.Finite? && 0.0 <= p.value <= 100.0
    ensures limit.Some? && limit.value > 0.0 && annual as real <= limit.value ==>
      p == Finite(annual as real / limit.value * 100.0)
    ensures limit.Some? && limit.value > 0.0 && annual as real >= limit.value ==>
      p == Finite(100.0)
  {
    match limit
    case None => NaN
    case Some(l) =>
      var p := MinWith100(Times100(Divide(annual as real, l)));
      if l > 0.0 then
        RatioBounds(annual as real, l);
        p
      else p
  }

  /** The facts about `a / l` the contract above rests on. */
  lemma RatioBounds(a: real, l: real)
    requires l > 0.0
    ensures a >= 0.0 ==> a / l * 100.0 >= 0.0
    ensures a <= l ==> a / l * 100.0 <= 100.0
    ensures a >= l ==> a / l * 100.0 >= 100.0
  {
    if a <= l {
      assert a / l <= 1.0;
    }
    if a >= l {
      assert a / l >= 1.0;
    }
  }

  /** The progress bar's colour classes. */
  datatype BarColor = Red | Amber | Primary

  /** `getProgressColor`: red above the limit, amber from 80 %, otherwise
      the primary colour. Comparisons with `undefined` or NaN are false. */
  function ProgressColor(annual: int, limit: Option<real>): (c: BarColor)
    ensures c == Red <==> limit.Some? && annual as real > limit.value
    ensures c == Amber <==>
      && !(limit.Some? && annual as real > limit.value)
      && ProgressPercentage(annual, limit).Finite?
      && ProgressPercentage(annual, limit).value >= 80.0
  {
    if limit.Some? && annual as real > limit.value then Red
    else
      var p := ProgressPercentage(annual, limit);
      if p.Finite? && p.value >= 80.0 then Amber else Primary
  }

  /** With a positive limit the bar is amber exactly from 80 % of the limit
      up to the limit itself, and red beyond it. */
  lemma ColorBands(annual: int, limit: real)
    requires limit > 0.0
    ensures ProgressColor(annual, Some(limit)) == Red <==> annual as real > limit
    ensures ProgressColor(annual, Some(limit)) == Amber <==>
      0.8 * limit <= annual as real <= limit
  {
    var a := annual as real;
    if a <= limit {
      assert ProgressPercentage(annual, Some(limit)) == Finite(a / limit * 100.0);
      var q := a / limit;
      assert q * limit == a;
      if q * 100.0 >= 80.0 {
        assert q >= 0.8;
        assert q * limit >= 0.8 * limit;
      }
      if a >= 0.8 * limit {
        assert q * limit >= 0.8 * limit;
        assert q >= 0.8;
      }
    }
  }
}
