/** `date + timedelta(days=n)` on the proleptic Gregorian calendar: one day
    forward or back, and n days with `OverflowError` outside years 1..9999. */
module Timedelta {
  import opened Wrappers
  import opened Calendar

  /** The following day; None past 9999-12-31. */
  function NextDay(d: Date): (r: Option<Date>)
    requires ValidDate(d)
    ensures r.Some? <==> d != MaxDate
    ensures r.Some? ==> ValidDate(r.value) && Ordinal(r.value) == Ordinal(d) + 1
  {
    if d == MaxDate then None else Some(NextDate(d))
  }

  /** The day after any date but the last. */
  function NextDate(d: Date): (e: Date)
    requires ValidDate(d) && d != MaxDate
    ensures ValidDate(e) && Ordinal(e) == Ordinal(d) + 1
  {
    if d.day < DaysInMonth(d.year, d.month) then Date(d.year, d.month, d.day + 1)
    else if d.month < 12 then Date(d.year, d.month + 1, 1)
    else
      YearStepForward(d);
      Date(d.year + 1, 1, 1)
  }

  /** New Year's Day directly follows New Year's Eve. */
  lemma YearStepForward(d: Date)
    requires ValidDate(d) && d.month == 12 && d.day == 31 && d.year < MaxYear
    ensures Ordinal(Date(d.year + 1, 1, 1)) == Ordinal(d) + 1
  {
    DaysBeforeYearStep(d.year);
    DaysBeforeMonthYear(d.year);
  }

  /** The preceding day; None before 0001-01-01. */
  function PrevDay(d: Date): (r: Option<Date>)
    requires ValidDate(d)
    ensures r.Some? <==> Ordinal(d) > 1
    ensures r.Some? ==> ValidDate(r.value) && Ordinal(r.value) == Ordinal(d) - 1
  {
    FirstDateOnly(d);
    if d == Date(MinYear, 1, 1) then None else Some(PrevDate(d))
  }

  /** 0001-01-01 is the only date whose ordinal is 1. */
  lemma FirstDateOnly(d: Date)
    requires ValidDate(d)
    ensures Ordinal(d) > 1 <==> d != Date(MinYear, 1, 1)
  {
    if d == Date(MinYear, 1, 1) {
      assert DaysBeforeYear(MinYear) == 0;
    } else {
      OrdinalRange(PrevDate(d));
    }
  }

  /** The day before any date but the first. */
  function PrevDate(d: Date): (e: Date)
    requires ValidDate(d) && d != Date(MinYear, 1, 1)
    ensures ValidDate(e) && Ordinal(e) + 1 == Ordinal(d)
  {
    if d.day > 1 then
      DayStepBack(d);
      Date(d.year, d.month, d.day - 1)
    else if d.month > 1 then
      MonthStepBack(d);
      Date(d.year, d.month - 1, DaysInMonth(d.year, d.month - 1))
    else
      YearStepBack(d);
      Date(d.year - 1, 12, 31)
  }

  /** Within a month the previous day is one ordinal back. */
  lemma DayStepBack(d: Date)
    requires ValidDate(d) && d.day > 1
    ensures ValidDate(Date(d.year, d.month, d.day - 1))
    ensures Ordinal(Date(d.year, d.month, d.day - 1)) + 1 == Ordinal(d) > 1
  {
  }

  /** The last day of a month directly precedes the first of the next. */
  lemma MonthStepBack(d: Date)
    requires ValidDate(d) && d.day == 1 && d.month > 1
    ensures ValidDate(Date(d.year, d.month - 1, DaysInMonth(d.year, d.month - 1)))
    ensures Ordinal(Date(d.year, d.month - 1, DaysInMonth(d.year, d.month - 1))) + 1 == Ordinal(d) > 1
  {
  }

  /** New Year's Eve directly precedes New Year's Day. */
  lemma YearStepBack(d: Date)
    requires ValidDate(d) && d.day == 1 && d.month == 1 && d.year > MinYear
    ensures ValidDate(Date(d.year - 1, 12, 31))
    ensures Ordinal(Date(d.year - 1, 12, 31)) + 1 == Ordinal(d) > 1
  {
    var e := Date(d.year - 1, 12, 31);
    assert d == Date(e.year + 1, 1, 1);
    YearStepForward(e);
  }

  /** `d + timedelta(days=n)`: None exactly when Python raises `OverflowError`. */
  function AddDays(d: Date, n: int): (r: Option<Date>)
    requires ValidDate(d)
    ensures r.Some? <==> 1 <= Ordinal(d) + n <= MaxOrdinal
    ensures r.Some? ==> ValidDate(r.value) && Ordinal(r.value) == Ordinal(d) + n
    decreases if n < 0 then -n else n
  {
    OrdinalRange(d);
    if n == 0 then Some(d)
    else if n > 0 then
      match NextDay(d)
      case None => None
      case Some(e) => AddDays(e, n - 1)
    else
      match PrevDay(d)
      case None => None
      case Some(e) => AddDays(e, n + 1)
  }
}
