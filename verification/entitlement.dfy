/**
  The entitlement table of app/lib/utils.ts (`calculateAnnualLeave`), the tiered
  schedule of Article 38 of Taiwan's Labor Standards Act as the code encodes it.
*/
module Entitlement {

  const SixMonthsInDays: int := 180
  const OneYearInDays: int := 365

  /** Annual-leave days for a completed-year count and a corrected day count. */
  function CalculateAnnualLeave(seniorityInYears: int, seniorityInDaysAfterCorrection: int): (days: int)
    ensures 0 <= days <= 30
  {
    if seniorityInYears >= 10 then
      var additionalYears := seniorityInYears - 10;
      if 15 + additionalYears < 30 then 15 + additionalYears else 30
    else if seniorityInYears >= 5 then 15
    else if seniorityInYears >= 3 then 14
    else if seniorityInYears >= 2 then 10
    else if seniorityInYears >= 1 then 7
    else if SixMonthsInDays <= seniorityInDaysAfterCorrection < OneYearInDays then 3
    else 0
  }

  /**
    The schedule written out year by year: entry i is the entitlement after i + 1
    completed years, for 1 to 25 years.
  */
  const YearSchedule: seq<int> :=
    [7, 10, 14, 14, 15, 15, 15, 15, 15, 15,
     16, 17, 18, 19, 20, 21, 22, 23, 24, 25, 26, 27, 28, 29, 30]

  /** From one completed year on, the table is the year-by-year schedule, and 30 after it ends. */
  lemma AnnualLeaveFollowsSchedule(years: int, days: int)
    requires years >= 1
    ensures CalculateAnnualLeave(years, days) == YearSchedule[if years < 25 then years - 1 else 24]
  {
  }

  /** Sample points of the table. */
  lemma AnnualLeaveTierValues()
    ensures CalculateAnnualLeave(0, 179) == 0
    ensures CalculateAnnualLeave(0, 180) == 3
    ensures CalculateAnnualLeave(0, 364) == 3
    ensures CalculateAnnualLeave(1, 400) == 7
    ensures CalculateAnnualLeave(2, 800) == 10
    ensures CalculateAnnualLeave(3, 1100) == 14 && CalculateAnnualLeave(4, 1500) == 14
    ensures CalculateAnnualLeave(5, 1830) == 15 && CalculateAnnualLeave(10, 3660) == 15
    ensures CalculateAnnualLeave(15, 5480) == 20
    ensures CalculateAnnualLeave(40, 14610) == 30
  {
  }

  /** The cap of 30 days is reached at 25 completed years and not before. */
  lemma AnnualLeaveCap(years: int, days: int)
    ensures CalculateAnnualLeave(years, days) == 30 <==> years >= 25
  {
  }

  /** From one completed year on, more years never mean fewer days. */
  lemma AnnualLeaveMonotone(y1: int, d1: int, y2: int, d2: int)
    requires 1 <= y1 <= y2
    ensures CalculateAnnualLeave(y1, d1) <= CalculateAnnualLeave(y2, d2)
  {
  }

  /** From one completed year on, the day count plays no part. */
  lemma AnnualLeaveIgnoresDaysFromFirstYear(years: int, d1: int, d2: int)
    requires years >= 1
    ensures CalculateAnnualLeave(years, d1) == CalculateAnnualLeave(years, d2)
  {
  }

  /**
    In the first year the entitlement is 3 exactly when the corrected day count
    lies in [180, 365), and 0 otherwise, including for a corrected count of 365 or
    more that a positive correction can produce.
  */
  lemma FirstYearTier(years: int, days: int)
    requires years < 1
    ensures CalculateAnnualLeave(years, days) == 3 <==> SixMonthsInDays <= days < OneYearInDays
    ensures CalculateAnnualLeave(years, days) == 0 <==> !(SixMonthsInDays <= days < OneYearInDays)
    ensures days >= OneYearInDays ==> CalculateAnnualLeave(years, days) == 0
  {
  }

  /**
    The correction field accepts any number, fractions included, while the model
    keeps it an integer. Whole-day tenure plus a fractional correction crosses the
    180- and 365-day thresholds exactly when tenure plus the floor of the
    correction does, so the table gives the same days either way.
  */
  lemma FractionalCorrectionActsAsFloor(years: int, days: int, correction: real)
    ensures (SixMonthsInDays as real <= days as real + correction < OneYearInDays as real)
            <==> (SixMonthsInDays <= days + correction.Floor < OneYearInDays)
    ensures years < 1 ==>
      CalculateAnnualLeave(years, days + correction.Floor)
      == (if SixMonthsInDays as real <= days as real + correction < OneYearInDays as real then 3 else 0)
  {
  }
}
