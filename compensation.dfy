/**
 * The compensation block of App.jsx (lines 404-492): from the logged hours,
 * the salary settings and the month's target hours, the expected monthly base,
 * the effective hourly rate, the base pay, four gated bonuses and the total.
 *
 * Amounts are exact reals; the 0.01-hour tolerance of the "target met" test is
 * kept as written.
 */
module Compensation {
  import opened Wrappers

  /** `parseFloat(x) || 0`, `None` standing for `NaN`: a number is kept (0 stays 0), `NaN` becomes 0. */
  function OrZero(parsed: Option<real>): (x: real)
    ensures parsed.None? ==> x == 0.0
    ensures parsed.Some? ==> x == parsed.value
  {
    parsed.GetOr(0.0)
  }

  /** The parsed form fields and the toggles the block reads. */
  datatype SalaryInputs = SalaryInputs(
    loggedHours: real,
    hourlyRate: real,
    baseSalary: real,
    targetHours: real,
    enableSalary: bool,
    enableAttendanceBonus: bool,
    enableTimeManagementBonus: bool,
    enableClientBonus: bool,
    enablePerformanceBonus: bool)

  /**
   * Reads the form: each text field through `parseFloat(...) || 0`, and the
   * month's target hours, `None` when not finite, as 0.
   */
  function ReadInputs(loggedHours: Option<real>, hourlyRate: Option<real>, baseSalary: Option<real>,
                      totalTargetHours: Option<real>, enableSalary: bool, enableAttendanceBonus: bool,
                      enableTimeManagementBonus: bool, enableClientBonus: bool,
                      enablePerformanceBonus: bool): (s: SalaryInputs)
    ensures s.loggedHours == OrZero(loggedHours) && s.hourlyRate == OrZero(hourlyRate)
    ensures s.baseSalary == OrZero(baseSalary) && s.targetHours == OrZero(totalTargetHours)
    ensures s.enableSalary == enableSalary && s.enableAttendanceBonus == enableAttendanceBonus
    ensures s.enableTimeManagementBonus == enableTimeManagementBonus
    ensures s.enableClientBonus == enableClientBonus && s.enablePerformanceBonus == enablePerformanceBonus
  {
    SalaryInputs(OrZero(loggedHours), OrZero(hourlyRate), OrZero(baseSalary), OrZero(totalTargetHours),
                 enableSalary, enableAttendanceBonus, enableTimeManagementBonus, enableClientBonus,
                 enablePerformanceBonus)
  }

  /**
   * `expectedMonthlyBase`: the base salary when one is set, otherwise the
   * hourly rate over the month's target hours when both are positive, else 0.
   */
  function ExpectedMonthlyBase(s: SalaryInputs): (e: real)
    ensures e >= 0.0
    ensures s.baseSalary > 0.0 ==> e == s.baseSalary
    ensures e > 0.0 <==> s.baseSalary > 0.0 || (s.targetHours > 0.0 && s.hourlyRate > 0.0)
  {
    if s.baseSalary > 0.0 then s.baseSalary
    else if s.targetHours > 0.0 && s.hourlyRate > 0.0 then s.hourlyRate * s.targetHours
    else 0.0
  }

  /** `effectiveHourlyRate`: a base salary spread over the target hours, else the hourly rate. */
  function EffectiveHourlyRate(s: SalaryInputs): (rate: real)
    ensures s.baseSalary > 0.0 && s.targetHours > 0.0 ==> rate > 0.0
    ensures !(s.baseSalary > 0.0 && s.targetHours > 0.0) ==> rate == s.hourlyRate
  {
    if s.baseSalary > 0.0 && s.targetHours > 0.0 then s.baseSalary / s.targetHours else s.hourlyRate
  }

  /** Whichever way the monthly base is set, the effective rate earns exactly it over the target hours. */
  lemma RateEarnsBaseOverTarget(s: SalaryInputs)
    requires s.targetHours > 0.0 && ExpectedMonthlyBase(s) > 0.0
    ensures EffectiveHourlyRate(s) * s.targetHours == ExpectedMonthlyBase(s)
    ensures EffectiveHourlyRate(s) > 0.0
  {
  }

  /** `cappedHours`: the logged hours, capped at a positive target. */
  function CappedHours(s: SalaryInputs): (h: real)
    ensures h <= s.loggedHours && (h == s.loggedHours || h == s.targetHours)
    ensures s.targetHours > 0.0 ==> h <= s.targetHours
    ensures s.targetHours <= 0.0 ==> h == s.loggedHours
  {
    if s.targetHours > 0.0 then (if s.loggedHours <= s.targetHours then s.loggedHours else s.targetHours)
    else s.loggedHours
  }

  /** `meetsMonthlyTarget`: salary on, a positive target, and logged within 0.01 h of it. */
  function MeetsMonthlyTarget(s: SalaryInputs): (met: bool)
    ensures met <==> s.enableSalary && s.targetHours > 0.0
                     && -0.01 < s.loggedHours - s.targetHours < 0.01
  {
    if s.enableSalary && s.targetHours > 0.0 then Abs(s.loggedHours - s.targetHours) < 0.01 else false
  }

  function Abs(x: real): (a: real)
    ensures a >= 0.0 && (a == x || a == -x)
  {
    if x < 0.0 then -x else x
  }

  /** The logged hours paid at the effective rate, or 0 when that rate is not positive. */
  function HourlyPay(s: SalaryInputs, hours: real): (pay: real)
    ensures EffectiveHourlyRate(s) <= 0.0 ==> pay == 0.0
    ensures EffectiveHourlyRate(s) > 0.0 ==> pay == EffectiveHourlyRate(s) * hours
    ensures hours >= 0.0 ==> pay >= 0.0
  {
    if EffectiveHourlyRate(s) > 0.0 then EffectiveHourlyRate(s) * hours else 0.0
  }

  /** `basePay`. */
  function BasePay(s: SalaryInputs): (pay: real)
    ensures !s.enableSalary ==> pay == 0.0
    ensures s.loggedHours >= 0.0 ==> pay >= 0.0
    ensures s.enableSalary && s.targetHours <= 0.0 && s.baseSalary > 0.0 ==> pay == s.baseSalary
    ensures s.enableSalary && s.targetHours <= 0.0 && s.baseSalary <= 0.0 ==>
              pay == (if s.hourlyRate > 0.0 then s.hourlyRate * s.loggedHours else 0.0)
    ensures MeetsMonthlyTarget(s) && ExpectedMonthlyBase(s) > 0.0 ==> pay == ExpectedMonthlyBase(s)
    ensures s.targetHours > 0.0 && ExpectedMonthlyBase(s) == 0.0 ==> pay == 0.0
  {
    if !s.enableSalary then 0.0
    else if s.targetHours <= 0.0 then
      (if s.baseSalary > 0.0 then s.baseSalary else HourlyPay(s, s.loggedHours))
    else if MeetsMonthlyTarget(s) then
      (if ExpectedMonthlyBase(s) > 0.0 then ExpectedMonthlyBase(s) else HourlyPay(s, s.loggedHours))
    else if EffectiveHourlyRate(s) > 0.0 then
      var computed := EffectiveHourlyRate(s) * CappedHours(s);
      if ExpectedMonthlyBase(s) > 0.0 then Min(ExpectedMonthlyBase(s), computed) else computed
    else 0.0
  }

  function Min(a: real, b: real): (m: real)
    ensures m <= a && m <= b && (m == a || m == b)
  {
    if a <= b then a else b
  }

  /** With a positive target and monthly base, the base pay never exceeds that base. */
  lemma BasePayAtMostBase(s: SalaryInputs)
    requires s.targetHours > 0.0 && ExpectedMonthlyBase(s) > 0.0
    ensures BasePay(s) <= ExpectedMonthlyBase(s)
  {
  }

  /** Short of the target, the base is prorated by the share of the target hours logged. */
  lemma BasePayProrated(s: SalaryInputs)
    requires s.enableSalary && s.targetHours > 0.0 && ExpectedMonthlyBase(s) > 0.0
    requires !MeetsMonthlyTarget(s) && s.loggedHours <= s.targetHours
    ensures BasePay(s) == ExpectedMonthlyBase(s) * (s.loggedHours / s.targetHours)
  {
    RateEarnsBaseOverTarget(s);
    var rate := EffectiveHourlyRate(s);
    assert rate == ExpectedMonthlyBase(s) / s.targetHours;
    assert rate * s.loggedHours <= rate * s.targetHours;
  }

  /**
   * Nothing stops negative logged hours reaching the block (the field's
   * minimum is advisory, and synced on-computer hours are any number): with a
   * positive target and base, short of it, they give a negative base pay and
   * total. (Under a target below 0.01 h, slightly negative hours count as
   * meeting it and earn the full base.)
   */
  lemma NegativeHoursNegativePay(s: SalaryInputs)
    requires s.enableSalary && s.targetHours > 0.0 && ExpectedMonthlyBase(s) > 0.0 && s.loggedHours < 0.0
    requires !MeetsMonthlyTarget(s)
    ensures BasePay(s) < 0.0 && TotalCompensation(s) == BasePay(s)
  {
    BasePayProrated(s);
  }

  /** Hours beyond the target earn nothing more than the full base. */
  lemma OverTargetEarnsBase(s: SalaryInputs)
    requires s.enableSalary && s.targetHours > 0.0 && ExpectedMonthlyBase(s) > 0.0
    requires s.loggedHours >= s.targetHours
    ensures BasePay(s) == ExpectedMonthlyBase(s)
  {
    RateEarnsBaseOverTarget(s);
  }

  /** Which bonuses are active. */
  datatype Bonuses = Bonuses(attendance: bool, timeManagement: bool, client: bool, performance: bool)

  /**
   * Each bonus needs salary on, its own toggle, the target met and a positive
   * monthly base; performance needs the other three as well.
   */
  function ActiveBonuses(s: SalaryInputs): (b: Bonuses)
    ensures b.attendance <==> s.enableAttendanceBonus && Qualifies(s)
    ensures b.timeManagement <==> s.enableTimeManagementBonus && Qualifies(s)
    ensures b.client <==> s.enableClientBonus && Qualifies(s)
    ensures b.performance <==> s.enablePerformanceBonus && b.attendance && b.timeManagement && b.client
  {
    var gate := s.enableSalary && MeetsMonthlyTarget(s) && ExpectedMonthlyBase(s) > 0.0;
    var attendance := gate && s.enableAttendanceBonus;
    var timeManagement := gate && s.enableTimeManagementBonus;
    var client := gate && s.enableClientBonus;
    Bonuses(attendance, timeManagement, client,
            s.enableSalary && s.enablePerformanceBonus && attendance && timeManagement && client)
  }

  /** Salary on, the target (positive) met within 0.01 h, and a positive monthly base. */
  predicate Qualifies(s: SalaryInputs) {
    s.enableSalary && s.targetHours > 0.0 && -0.01 < s.loggedHours - s.targetHours < 0.01
    && ExpectedMonthlyBase(s) > 0.0
  }

  /** The four bonus amounts: 5 %, 5 %, 3 % and 3 % of the monthly base when active. */
  datatype BonusAmounts = BonusAmounts(attendance: real, timeManagement: real, client: real, performance: real)

  function BonusAmountsOf(s: SalaryInputs): (a: BonusAmounts)
    ensures var e := ExpectedMonthlyBase(s);
            && (a.attendance == 0.0 || a.attendance == e * 0.05)
            && (a.timeManagement == 0.0 || a.timeManagement == e * 0.05)
            && (a.client == 0.0 || a.client == e * 0.03)
            && (a.performance == 0.0 || a.performance == e * 0.03)
    ensures var e := ExpectedMonthlyBase(s);
            && 0.0 <= a.attendance <= e * 0.05 && 0.0 <= a.timeManagement <= e * 0.05
            && 0.0 <= a.client <= e * 0.03 && 0.0 <= a.performance <= e * 0.03
    ensures var b := ActiveBonuses(s);
            && (a.attendance > 0.0 <==> b.attendance)
            && (a.timeManagement > 0.0 <==> b.timeManagement)
            && (a.client > 0.0 <==> b.client)
            && (a.performance > 0.0 <==> b.performance)
    ensures a.performance > 0.0 ==> a.attendance > 0.0 && a.timeManagement > 0.0 && a.client > 0.0
  {
    var b := ActiveBonuses(s);
    var base := ExpectedMonthlyBase(s);
    BonusAmounts(if b.attendance then base * 0.05 else 0.0,
                 if b.timeManagement then base * 0.05 else 0.0,
                 if b.client then base * 0.03 else 0.0,
                 if b.performance then base * 0.03 else 0.0)
  }

  /** `bonusSubtotal`: at most 16 % of the monthly base, and nothing unless the target is met. */
  function BonusSubtotal(s: SalaryInputs): (total: real)
    ensures 0.0 <= total <= ExpectedMonthlyBase(s) * 0.16
    ensures !Qualifies(s) ==> total == 0.0
  {
    var a := BonusAmountsOf(s);
    a.attendance + a.timeManagement + a.client + a.performance
  }

  /**
   * `totalCompensation`: nothing with salary off; otherwise at least the base
   * pay, exactly the base pay short of the target, the full monthly base plus
   * bonuses when it is met, and never above 116 % of a positive monthly base
   * under a positive target.
   */
  function TotalCompensation(s: SalaryInputs): (total: real)
    ensures !s.enableSalary ==> total == 0.0
    ensures s.enableSalary ==> total >= BasePay(s)
    ensures !Qualifies(s) ==> total == BasePay(s)
    ensures Qualifies(s) ==> ExpectedMonthlyBase(s) <= total <= ExpectedMonthlyBase(s) * 1.16
    ensures s.targetHours > 0.0 && ExpectedMonthlyBase(s) > 0.0 ==> total <= ExpectedMonthlyBase(s) * 1.16
  {
    if s.enableSalary then
      assert s.targetHours > 0.0 && ExpectedMonthlyBase(s) > 0.0 ==> BasePay(s) <= ExpectedMonthlyBase(s) by {
        if s.targetHours > 0.0 && ExpectedMonthlyBase(s) > 0.0 { BasePayAtMostBase(s); }
      }
      BasePay(s) + BonusSubtotal(s)
    else 0.0
  }

  /** With salary off, nothing is paid and no bonus is active. */
  lemma SalaryDisabledPaysNothing(s: SalaryInputs)
    requires !s.enableSalary
    ensures BasePay(s) == 0.0 && TotalCompensation(s) == 0.0
    ensures ActiveBonuses(s) == Bonuses(false, false, false, false)
  {
  }

  /**
   * When neither the hourly rate nor the base salary field parses (both read
   * as 0), nothing is paid, whatever the logged hours, the month's target and
   * the toggles.
   */
  lemma NoRateNoPay(loggedHours: Option<real>, totalTargetHours: Option<real>, enableSalary: bool,
                    enableAttendanceBonus: bool, enableTimeManagementBonus: bool, enableClientBonus: bool,
                    enablePerformanceBonus: bool)
    ensures var s := ReadInputs(loggedHours, None, None, totalTargetHours, enableSalary, enableAttendanceBonus,
                                enableTimeManagementBonus, enableClientBonus, enablePerformanceBonus);
            ExpectedMonthlyBase(s) == 0.0 && BasePay(s) == 0.0 && TotalCompensation(s) == 0.0
  {
  }

  /** Base 4000, target 160 h, 160 h logged, every toggle on: 4000 plus 16 %. */
  lemma FullMonthExample(s: SalaryInputs)
    requires s == SalaryInputs(160.0, 0.0, 4000.0, 160.0, true, true, true, true, true)
    ensures ActiveBonuses(s) == Bonuses(true, true, true, true)
    ensures BasePay(s) == 4000.0 && TotalCompensation(s) == 4640.0
  {
  }

  lemma ThreeQuarterBasePay(s: SalaryInputs)
    requires s == SalaryInputs(120.0, 0.0, 4000.0, 160.0, true, true, true, true, true)
    ensures BasePay(s) == 3000.0
  {
    assert ExpectedMonthlyBase(s) == 4000.0;
    assert !MeetsMonthlyTarget(s);
    assert EffectiveHourlyRate(s) == 25.0;
    assert CappedHours(s) == 120.0;
  }

  /** The same month with 120 h logged: three quarters of the base and no bonus. */
  lemma ThreeQuarterMonthExample(s: SalaryInputs)
    requires s == SalaryInputs(120.0, 0.0, 4000.0, 160.0, true, true, true, true, true)
    ensures BasePay(s) == 3000.0 && TotalCompensation(s) == 3000.0
  {
    ThreeQuarterBasePay(s);
    assert !Qualifies(s);
  }
}
