/** The proleptic Gregorian calendar of Python's `datetime`: valid dates
    (years 1..9999), day ordinals (0001-01-01 is day 1), ISO rendering (`strftime('%Y-%m-%d')`)
    and the parser `datetime.strptime(s, '%Y-%m-%d')`. */
module Calendar {
  import opened Wrappers
  import opened Text

  datatype Date = Date(year: int, month: int, day: int)

  const MinYear := 1
  const MaxYear := 9999

  predicate IsLeap(y: int) {
    y % 4 == 0 && (y % 100 != 0 || y % 400 == 0)
  }

  function DaysInMonth(y: int, m: int): (n: int)
    requires 1 <= m <= 12
    ensures 28 <= n <= 31
  {
    if m == 2 then (if IsLeap(y) then 29 else 28)
    else if m == 4 || m == 6 || m == 9 || m == 11 then 30
    else 31
  }

  function DaysInYear(y: int): int {
    if IsLeap(y) then 366 else 365
  }

  /** A date `datetime.date(year, month, day)` accepts. */
  predicate ValidDate(d: Date) {
    MinYear <= d.year <= MaxYear && 1 <= d.month <= 12 && 1 <= d.day <= DaysInMonth(d.year, d.month)
  }

  /** Chronological order on dates: by year, then month, then day. */
  predicate Before(a: Date, b: Date) {
    a.year < b.year
    || (a.year == b.year && a.month < b.month)
    || (a.year == b.year && a.month == b.month && a.day < b.day)
  }

  // ---------------------------------------------------------------------------
  // Ordinals

  function DaysBeforeYear(y: int): (n: int)
    requires y >= 1
    ensures n >= 0
  {
    var p := y - 1;
    365 * p + p / 4 - p / 100 + p / 400
  }

  function DaysBeforeMonth(y: int, m: int): (n: int)
    requires 1 <= m <= 13
    ensures n >= 0
  {
    if m == 1 then 0 else DaysBeforeMonth(y, m - 1) + DaysInMonth(y, m - 1)
  }

  /** Python `date.toordinal()`. */
  function Ordinal(d: Date): int
    requires ValidDate(d)
  {
    DaysBeforeYear(d.year) + DaysBeforeMonth(d.year, d.month) + d.day
  }

  const MaxDate := Date(MaxYear, 12, 31)

  /** Ordinal of 9999-12-31, the last date `datetime` represents. */
  const MaxOrdinal := 3652059

  lemma DaysBeforeYearStep(y: int)
    requires y >= 1
    ensures DaysBeforeYear(y + 1) == DaysBeforeYear(y) + DaysInYear(y)
  {
    var p := y - 1;
    QuarterStep(p);
    CenturyStep(p);
    QuadCenturyStep(p);
    MultipleChain(y);
    var a, b, c := (p + 1) / 4 - p / 4, (p + 1) / 100 - p / 100, (p + 1) / 400 - p / 400;
    assert DaysBeforeYear(y + 1) - DaysBeforeYear(y) == 365 + a - b + c;
    assert a == (if y % 4 == 0 then 1 else 0);
    assert b == (if y % 100 == 0 then 1 else 0);
    assert c == (if y % 400 == 0 then 1 else 0);
  }

  /** Multiples of 400 are multiples of 100, which are multiples of 4. */
  lemma MultipleChain(y: int)
    ensures y % 400 == 0 ==> y % 100 == 0
    ensures y % 100 == 0 ==> y % 4 == 0
  {
    if y % 400 == 0 {
      assert y / 100 == 4 * (y / 400);
    }
    if y % 100 == 0 {
      assert y / 4 == 25 * (y / 100);
    }
  }

  /** Each of the three leap-year quotients steps up exactly at its multiples. */
  lemma QuarterStep(p: int)
    requires p >= 0
    ensures (p + 1) / 4 == p / 4 + (if (p + 1) % 4 == 0 then 1 else 0)
  {
  }

  lemma CenturyStep(p: int)
    requires p >= 0
    ensures (p + 1) / 100 == p / 100 + (if (p + 1) % 100 == 0 then 1 else 0)
  {
  }

  lemma QuadCenturyStep(p: int)
    requires p >= 0
    ensures (p + 1) / 400 == p / 400 + (if (p + 1) % 400 == 0 then 1 else 0)
  {
  }

  lemma DaysBeforeYearMonotone(a: int, b: int)
    requires 1 <= a <= b
    ensures DaysBeforeYear(a) + 365 * (b - a) <= DaysBeforeYear(b)
    decreases b - a
  {
    if a < b {
      DaysBeforeYearStep(a);
      DaysBeforeYearMonotone(a + 1, b);
    }
  }

  lemma {:induction false} DaysBeforeMonthStrict(y: int, m: int, m': int)
    requires 1 <= m < m' <= 13
    ensures DaysBeforeMonth(y, m) + DaysInMonth(y, m) <= DaysBeforeMonth(y, m')
    decreases m' - m
  {
    if m + 1 < m' {
      DaysBeforeMonthStrict(y, m + 1, m');
    }
  }

  lemma DaysBeforeMonthYear(y: int)
    ensures DaysBeforeMonth(y, 12) + 31 == DaysInYear(y)
    ensures DaysBeforeMonth(y, 13) == DaysInYear(y)
  {
    assert DaysBeforeMonth(y, 2) == 31;
    assert DaysBeforeMonth(y, 3) == 31 + DaysInMonth(y, 2);
    assert DaysBeforeMonth(y, 4) == DaysBeforeMonth(y, 3) + 31;
    assert DaysBeforeMonth(y, 5) == DaysBeforeMonth(y, 4) + 30;
    assert DaysBeforeMonth(y, 6) == DaysBeforeMonth(y, 5) + 31;
    assert DaysBeforeMonth(y, 7) == DaysBeforeMonth(y, 6) + 30;
    assert DaysBeforeMonth(y, 8) == DaysBeforeMonth(y, 7) + 31;
    assert DaysBeforeMonth(y, 9) == DaysBeforeMonth(y, 8) + 31;
    assert DaysBeforeMonth(y, 10) == DaysBeforeMonth(y, 9) + 30;
    assert DaysBeforeMonth(y, 11) == DaysBeforeMonth(y, 10) + 31;
    assert DaysBeforeMonth(y, 12) == DaysBeforeMonth(y, 11) + 30;
  }

  lemma OrdinalWithinYear(d: Date)
    requires ValidDate(d)
    ensures DaysBeforeYear(d.year) < Ordinal(d) <= DaysBeforeYear(d.year) + DaysInYear(d.year)
  {
    if d.month < 12 {
      DaysBeforeMonthStrict(d.year, d.month, 13);
    }
    DaysBeforeMonthYear(d.year);
  }

  /** The ordinal numbering follows chronological order. */
  lemma OrdinalMonotone(a: Date, b: Date)
    requires ValidDate(a) && ValidDate(b) && Before(a, b)
    ensures Ordinal(a) < Ordinal(b)
  {
    if a.year < b.year {
      OrdinalWithinYear(a);
      OrdinalWithinYear(b);
      DaysBeforeYearStep(a.year);
      DaysBeforeYearMonotone(a.year + 1, b.year);
    } else if a.month < b.month {
      DaysBeforeMonthStrict(a.year, a.month, b.month);
    }
  }

  /** Chronological order and ordinal order coincide on valid dates. */
  lemma OrdinalOrder(a: Date, b: Date)
    requires ValidDate(a) && ValidDate(b)
    ensures Before(a, b) <==> Ordinal(a) < Ordinal(b)
    ensures a == b <==> Ordinal(a) == Ordinal(b)
  {
    if Before(a, b) {
      OrdinalMonotone(a, b);
    } else if Before(b, a) {
      OrdinalMonotone(b, a);
    } else {
      assert a == b;
    }
  }

  lemma OrdinalRange(d: Date)
    requires ValidDate(d)
    ensures 1 <= Ordinal(d) <= MaxOrdinal
    ensures Ordinal(d) == MaxOrdinal <==> d == MaxDate
  {
    assert Ordinal(MaxDate) == MaxOrdinal by {
      assert DaysBeforeMonth(MaxYear, 12) == 334;
    }
    OrdinalOrder(d, MaxDate);
    if d != MaxDate {
      assert Before(d, MaxDate);
    }
  }

  // ---------------------------------------------------------------------------
  // ISO rendering and parsing

  /** `strftime('%Y-%m-%d')`: four-digit year, two-digit month and day. */
  function FormatIso(d: Date): (s: string)
    requires ValidDate(d)
    ensures |s| == 10 && s[4] == '-' && s[7] == '-'
  {
    Pad(d.year, 4) + ("-" + (Pad(d.month, 2) + ("-" + Pad(d.day, 2))))
  }

  /** Text order of ISO renderings is chronological order: this is what makes
      the string comparisons of stored dates meaningful. */
  lemma IsoOrder(a: Date, b: Date)
    requires ValidDate(a) && ValidDate(b)
    ensures LexLess(FormatIso(a), FormatIso(b)) <==> Before(a, b)
    ensures FormatIso(a) == FormatIso(b) <==> a == b
  {
    var ma, mb := "-" + (Pad(a.month, 2) + ("-" + Pad(a.day, 2))), "-" + (Pad(b.month, 2) + ("-" + Pad(b.day, 2)));
    var na, nb := Pad(a.month, 2) + ("-" + Pad(a.day, 2)), Pad(b.month, 2) + ("-" + Pad(b.day, 2));
    var da, db := "-" + Pad(a.day, 2), "-" + Pad(b.day, 2);
    LexAppend(Pad(a.year, 4), ma, Pad(b.year, 4), mb);
    LexPad(a.year, b.year, 4);
    PadInjective(a.year, b.year, 4);
    LexAppend("-", na, "-", nb);
    assert ma[1..] == na && mb[1..] == nb;
    assert ma == mb <==> na == nb;
    LexAppend(Pad(a.month, 2), da, Pad(b.month, 2), db);
    LexPad(a.month, b.month, 2);
    PadInjective(a.month, b.month, 2);
    LexAppend("-", Pad(a.day, 2), "-", Pad(b.day, 2));
    assert da[1..] == Pad(a.day, 2) && db[1..] == Pad(b.day, 2);
    LexPad(a.day, b.day, 2);
    PadInjective(a.day, b.day, 2);
    LexLessIrreflexive("-");
    var fa, fb := FormatIso(a), FormatIso(b);
    assert fa == Pad(a.year, 4) + ma && fb == Pad(b.year, 4) + mb;
    assert fa == fb <==> Pad(a.year, 4) == Pad(b.year, 4) && ma == mb by {
      if fa == fb {
        assert fa[..4] == Pad(a.year, 4) && fb[..4] == Pad(b.year, 4);
        assert fa[4..] == ma && fb[4..] == mb;
      }
    }
    assert na == nb <==> Pad(a.month, 2) == Pad(b.month, 2) && da == db by {
      if na == nb {
        assert na[..2] == Pad(a.month, 2) && nb[..2] == Pad(b.month, 2);
        assert na[2..] == da && nb[2..] == db;
      }
    }
    assert da == db <==> Pad(a.day, 2) == Pad(b.day, 2) by {
      if da == db {
        assert da[1..] == db[1..];
      }
    }
  }

  /** ISO order, stated on `LexLe`. */
  lemma IsoOrderLe(a: Date, b: Date)
    requires ValidDate(a) && ValidDate(b)
    ensures LexLe(FormatIso(a), FormatIso(b)) <==> Ordinal(a) <= Ordinal(b)
  {
    IsoOrder(a, b);
    OrdinalOrder(a, b);
  }

  predicate IsDigit1to9(c: char) {
    '1' <= c <= '9'
  }

  /** The month group `1[0-2]|0[1-9]|[1-9]` followed by the literal `-`:
      the first alternative that is followed by `-` is the only one the
      regular expression can complete with. Yields (month, length). */
  function MonthToken(t: string): Option<(int, int)> {
    if |t| >= 3 && t[0] == '1' && '0' <= t[1] <= '2' && t[2] == '-' then Some((10 + DigitValue(t[1]), 2))
    else if |t| >= 3 && t[0] == '0' && IsDigit1to9(t[1]) && t[2] == '-' then Some((DigitValue(t[1]), 2))
    else if |t| >= 2 && IsDigit1to9(t[0]) && t[1] == '-' then Some((DigitValue(t[0]), 1))
    else None
  }

  /** The day group `3[01]|[12]\d|0[1-9]|[1-9]| [1-9]`: at the end of the
      pattern nothing forces backtracking, so the first alternative that
      matches is taken. Yields (day, length). */
  function DayToken(t: string): Option<(int, int)> {
    if |t| >= 2 && t[0] == '3' && '0' <= t[1] <= '1' then Some((30 + DigitValue(t[1]), 2))
    else if |t| >= 2 && '1' <= t[0] <= '2' && IsDigit(t[1]) then Some((10 * DigitValue(t[0]) + DigitValue(t[1]), 2))
    else if |t| >= 2 && t[0] == '0' && IsDigit1to9(t[1]) then Some((DigitValue(t[1]), 2))
    else if |t| >= 1 && IsDigit1to9(t[0]) then Some((DigitValue(t[0]), 1))
    else if |t| >= 2 && t[0] == ' ' && IsDigit1to9(t[1]) then Some((DigitValue(t[1]), 2))
    else None
  }

  /** `datetime.strptime(s, '%Y-%m-%d')`, None where it raises `ValueError`:
      the pattern must match at the start, nothing may remain after it
      ("unconverted data remains"), and the fields must form a real date. */
  function ParseIso(s: string): (r: Option<Date>)
    ensures r.Some? ==> ValidDate(r.value)
  {
    if |s| < 5 || !AllDigits(s[..4]) || s[4] != '-' then None
    else
      match MonthToken(s[5..])
      case None => None
      case Some(mt) =>
        var rest := s[5 + mt.1 + 1..];
        match DayToken(rest)
        case None => None
        case Some(dt) =>
          if dt.1 != |rest| then None
          else
            var d := Date(ParseNat(s[..4]), mt.0, dt.0);
            if ValidDate(d) then Some(d) else None
  }

  lemma Pad2(n: nat)
    requires n < 100
    ensures Pad(n, 2) == [DigitChar(n / 10), DigitChar(n % 10)]
  {
    assert Pad(n / 100, 0) == [];
  }

  /** The fields of a formatted date sit at fixed offsets. */
  lemma FormatIsoParts(d: Date)
    requires ValidDate(d)
    ensures var s := FormatIso(d);
            && s[..4] == Pad(d.year, 4)
            && s[5..] == Pad(d.month, 2) + ("-" + Pad(d.day, 2))
            && s[8..] == Pad(d.day, 2)
  {
  }

  lemma FormatIsoTokens(d: Date)
    requires ValidDate(d)
    ensures MonthToken(FormatIso(d)[5..]) == Some((d.month, 2))
    ensures DayToken(FormatIso(d)[8..]) == Some((d.day, 2))
  {
    FormatIsoParts(d);
    Pad2(d.month);
    Pad2(d.day);
  }

  /** Parsing what `strftime('%Y-%m-%d')` printed gives back the date. */
  lemma ParseFormatIso(d: Date)
    requires ValidDate(d)
    ensures ParseIso(FormatIso(d)) == Some(d)
  {
    FormatIsoParts(d);
    FormatIsoTokens(d);
    FormatIsoYear(d);
  }

  lemma FormatIsoYear(d: Date)
    requires ValidDate(d)
    ensures AllDigits(FormatIso(d)[..4]) && ParseNat(FormatIso(d)[..4]) == d.year
  {
    FormatIsoParts(d);
    ParsePad(d.year, 4);
    Pow10Four();
  }
}
