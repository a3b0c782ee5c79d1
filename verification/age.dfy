/**
  The age normaliser of `calc_value`: an age given as whole months plus days becomes
  one whole number of days, the key of the reference tables, capped at the last
  tabulated day.
*/
module AgeNormalizer {
  import opened Rounding

  /** The last day the reference tables hold (about five years). */
  const MaxAgeDays := 1856

  /** A month is 30.4375 days (365.25 / 12), that is 487 sixteenths of a day. */
  const MonthSixteenths := 487

  /** A day is 16 sixteenths of a day. */
  const DaySixteenths := 16

  /**
    `months * 30.4375 + days` counted in sixteenths of a day. The floating-point
    expression of the source computes this value exactly for every age it can see.
  */
  function AgeSixteenths(months: int, days: int): int
  {
    MonthSixteenths * months + DaySixteenths * days
  }

  /**
    The table key for an age of `months` and `days`: the nearest whole day
    (ties to the even day, as Python's `round` does), but never past MaxAgeDays.
  */
  function AgeInDays(months: int, days: int): (age: int)
    ensures age <= MaxAgeDays
    ensures months >= 0 && days >= 0 ==> age >= 0
    ensures age < MaxAgeDays ==> IsRoundHalfEven(AgeSixteenths(months, days), DaySixteenths, age)
    ensures age == MaxAgeDays <==> 2 * AgeSixteenths(months, days) >= DaySixteenths * (2 * MaxAgeDays - 1)
  {
    var rounded := RoundHalfEven(AgeSixteenths(months, days), DaySixteenths);
    if rounded < MaxAgeDays then rounded else MaxAgeDays
  }

  /** Ages that are exactly half a day past midnight round to the even day: 8 months and 24 months. */
  lemma HalfDayExamples()
    ensures AgeInDays(8, 0) == 244
    ensures AgeInDays(24, 0) == 730
    ensures AgeInDays(6, 0) == 183
  {
  }

  /** For fixed days, a later month never gives an earlier table day. */
  lemma AgeMonotoneInMonths(months1: int, months2: int, days: int)
    requires months1 <= months2
    ensures AgeInDays(months1, days) <= AgeInDays(months2, days)
  {
  }

  /** For fixed months, more days never give an earlier table day. */
  lemma AgeMonotoneInDays(months: int, days1: int, days2: int)
    requires days1 <= days2
    ensures AgeInDays(months, days1) <= AgeInDays(months, days2)
  {
  }

  /**
    An age written with 0..29 extra days is ordered like the pair (months, days):
    the last day of a month never maps past the first day of the next month.
  */
  lemma AgeMonotoneInMonthsAndDays(months1: int, days1: int, months2: int, days2: int)
    requires 0 <= days1 < 30 && 0 <= days2 < 30
    requires months1 < months2 || (months1 == months2 && days1 <= days2)
    ensures AgeInDays(months1, days1) <= AgeInDays(months2, days2)
  {
  }

  /** From 61 months on, whatever the extra days, the age is the last tabulated day. */
  lemma AgeSaturates(months: int, days: int)
    requires months >= 61 && days >= 0
    ensures AgeInDays(months, days) == MaxAgeDays
  {
  }

  /** The months that put the age exactly half a day past a whole day are those 8 modulo 16. */
  lemma HalfDayMonths(months: int, days: int)
    ensures IsTie(AgeSixteenths(months, days), DaySixteenths) <==> months % 16 == 8
  {
  }

  /**
    One more day moves the table day by exactly one, except in months that are
    8 modulo 16, where the age sits on half days and round-half-to-even moves it
    by zero or two: 8 months 0 days and 8 months 1 day share day 244, and day 245
    is skipped.
  */
  lemma AgeDayStep(months: int, days: int)
    requires AgeInDays(months, days + 1) < MaxAgeDays
    ensures months % 16 != 8 ==> AgeInDays(months, days + 1) == AgeInDays(months, days) + 1
    ensures months % 16 == 8 ==>
      var d := AgeInDays(months, days + 1) - AgeInDays(months, days);
      d == 0 || d == 2
  {
  }

  /** The collision that AgeDayStep allows does happen. */
  lemma HalfDayCollision()
    ensures AgeInDays(8, 0) == AgeInDays(8, 1) == 244
    ensures AgeInDays(8, 2) == 246
  {
  }
}
