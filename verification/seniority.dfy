/**
  The seniority calculator of app/lib/utils.ts (`calculateSeniority`), with the
  reference date passed in instead of read from the clock. The grant route carries
  a verbatim copy of the same function; both are modelled by this one definition.
*/
module Seniority {
  import opened Wrappers
  import opened Calendar
  import opened Text

  /** Every field of `SeniorityDetails` except the display-only decimal year count. */
  datatype SeniorityDetails = SeniorityDetails(
    seniorityInYears: int,
    seniorityInDaysBeforeCorrection: int,
    seniorityInDaysAfterCorrection: int,
    daysUntilNextSeniorityCycle: int,
    currentSeniorityCycle: string,
    currentCycleStartDate: Date)

  const UnderOneYearLabel: string := "未滿1年"
  const YearDash: string := "年-"
  const YearMark: string := "年"

  /** The cycle label: "未滿1年" during the first year, "n年-(n+1)年" afterwards. */
  function CycleLabel(years: int): (name: string)
    ensures name == UnderOneYearLabel <==> years < 1
  {
    if years < 1 then UnderOneYearLabel
    else
      var name := NatToString(years) + YearDash + NatToString(years + 1) + YearMark;
      assert name[0] == NatToString(years)[0];
      name
  }

  /**
    Reads a label of the form "n年-m年" back into its two year counts; the
    first-year label, and anything else, gives `None`.
  */
  function ParseCycleLabel(name: string): Option<(nat, nat)> {
    var first := LeadingDigits(name);
    var rest := name[|first|..];
    if first != [] && StartsWith(rest, YearDash) then
      var second := LeadingDigits(rest[|YearDash|..]);
      if second != [] && rest[|YearDash|..][|second|..] == YearMark then
        Some((DigitsValue(first), DigitsValue(second)))
      else None
    else None
  }

  /**
    The label is a faithful rendering: it reads back as the completed-year count
    followed by the next year, and the first-year label reads back as no count.
  */
  lemma CycleLabelRoundTrip(years: int)
    ensures years >= 1 ==> ParseCycleLabel(CycleLabel(years)) == Some((years, years + 1))
    ensures years < 1 ==> ParseCycleLabel(CycleLabel(years)) == None
  {
    if years >= 1 {
      var second := NatToString(years + 1);
      var rest := YearDash + second + YearMark;
      assert CycleLabel(years) == NatToString(years) + rest;
      LeadingDigitsOfPrefix(NatToString(years), rest);
      assert CycleLabel(years)[|NatToString(years)|..] == rest;
      assert rest[|YearDash|..] == second + YearMark;
      LeadingDigitsOfPrefix(second, YearMark);
      assert (second + YearMark)[|second|..] == YearMark;
      DigitsValueOfNatToString(years);
      DigitsValueOfNatToString(years + 1);
    } else {
      assert LeadingDigits(CycleLabel(years)) == [];
    }
  }

  /**
    `addYears(hireDate, differenceInYears(today, hireDate))`: the anniversary that
    opened the current seniority cycle, as `calculateSeniority` reports it.
  */
  function CurrentCycleStart(hireDate: Date, today: Date): (start: Date)
    requires ValidDate(hireDate) && ValidDate(today)
    ensures ValidDate(start)
    ensures start.month == hireDate.month
  {
    AddYears(hireDate, DifferenceInYears(today, hireDate))
  }

  /** `calculateSeniority(hireDate, correctionDays)` evaluated on the day `today`. */
  function CalculateSeniority(hireDate: Date, correctionDays: int, today: Date): (s: SeniorityDetails)
    requires ValidDate(hireDate) && ValidDate(today)
    ensures DayNumber(hireDate) + s.seniorityInDaysBeforeCorrection == DayNumber(today)
    ensures s.seniorityInDaysAfterCorrection == s.seniorityInDaysBeforeCorrection + correctionDays
    ensures Before(hireDate, today) <==> s.seniorityInDaysBeforeCorrection > 0
    ensures hireDate == today <==> s.seniorityInDaysBeforeCorrection == 0
    ensures s.currentCycleStartDate == CurrentCycleStart(hireDate, today)
    ensures s.currentCycleStartDate == AddYears(hireDate, s.seniorityInYears)
    ensures s.currentSeniorityCycle == UnderOneYearLabel <==> s.seniorityInYears < 1
    ensures s.seniorityInYears >= 1 ==>
      ParseCycleLabel(s.currentSeniorityCycle) == Some((s.seniorityInYears, s.seniorityInYears + 1))
    ensures DayNumber(today) + s.daysUntilNextSeniorityCycle
            == DayNumber(AddYears(hireDate, if s.seniorityInYears < 1 then 1 else s.seniorityInYears + 1))
  {
    DayNumberInjective(hireDate, today);
    BeforeMatchesDayNumber(hireDate, today);
    var before := DifferenceInDays(today, hireDate);
    var years := DifferenceInYears(today, hireDate);
    CycleLabelRoundTrip(years);
    var nextAnniversary := if years < 1 then AddYears(hireDate, 1) else AddYears(hireDate, years + 1);
    SeniorityDetails(
      years,
      before,
      before + correctionDays,
      DifferenceInDays(nextAnniversary, today),
      CycleLabel(years),
      CurrentCycleStart(hireDate, today))
  }

  /**
    For a hire date on or before the reference date (and not on Feb 29), the cycle
    start is the latest anniversary reached: addYears(hire, years) <= today <
    addYears(hire, years + 1), no later anniversary is reached, and the next
    anniversary is strictly in the future.
  */
  lemma CycleStartIsLatestAnniversary(hireDate: Date, correctionDays: int, today: Date, k: int)
    requires ValidDate(hireDate) && ValidDate(today) && !IsLeapDay(hireDate)
    requires !Before(today, hireDate)
    ensures var s := CalculateSeniority(hireDate, correctionDays, today);
      && s.seniorityInYears >= 0
      && !Before(today, s.currentCycleStartDate)
      && Before(today, AddYears(hireDate, s.seniorityInYears + 1))
      && (!Before(today, AddYears(hireDate, k)) ==> k <= s.seniorityInYears)
      && s.daysUntilNextSeniorityCycle > 0
      && DayNumber(today) + s.daysUntilNextSeniorityCycle == DayNumber(AddYears(hireDate, s.seniorityInYears + 1))
  {
  }

  /** A hire date still in the future has a positive wait to its first anniversary. */
  lemma FutureHireNextCyclePositive(hireDate: Date, correctionDays: int, today: Date)
    requires ValidDate(hireDate) && ValidDate(today)
    requires Before(today, hireDate)
    ensures var s := CalculateSeniority(hireDate, correctionDays, today);
      && s.seniorityInYears <= 0 && s.daysUntilNextSeniorityCycle > 0
      && DayNumber(today) + s.daysUntilNextSeniorityCycle == DayNumber(AddYears(hireDate, 1))
  {
  }

  /**
    The correction moves only the corrected day count: years, cycle start, label
    and days to the next cycle are the same for every correction.
  */
  lemma CorrectionOnlyShiftsDays(hireDate: Date, c1: int, c2: int, today: Date)
    requires ValidDate(hireDate) && ValidDate(today)
    ensures var s1 := CalculateSeniority(hireDate, c1, today);
      var s2 := CalculateSeniority(hireDate, c2, today);
      && s1.seniorityInYears == s2.seniorityInYears
      && s1.currentCycleStartDate == s2.currentCycleStartDate
      && s1.currentSeniorityCycle == s2.currentSeniorityCycle
      && s1.daysUntilNextSeniorityCycle == s2.daysUntilNextSeniorityCycle
      && s1.seniorityInDaysBeforeCorrection == s2.seniorityInDaysBeforeCorrection
      && s2.seniorityInDaysAfterCorrection - s1.seniorityInDaysAfterCorrection == c2 - c1
  {
  }

  /**
    A Feb 29 hire date on Feb 28 of the following (common) year: the clamped first
    anniversary has arrived, yet the year count is still 0, the cycle start is the
    hire date and the days to the next cycle are 0.
  */
  lemma LeapDayHireOnFebruary28()
    ensures var s := CalculateSeniority(Date(2024, 2, 29), 0, Date(2025, 2, 28));
      && s.seniorityInYears == 0
      && s.currentCycleStartDate == Date(2024, 2, 29)
      && s.daysUntilNextSeniorityCycle == 0
  {
    var hire := Date(2024, 2, 29);
    var today := Date(2025, 2, 28);
    BeforeMatchesDayNumber(hire, today);
    BeforeMatchesDayNumber(today, hire);
    assert CompareAsc(today, hire) == 1;
    assert CompareMonthDay(today, hire) == -1;
    assert DifferenceInYears(today, hire) == 0;
    assert AddYears(hire, 1) == today;
  }
}
