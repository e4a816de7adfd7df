/**
 * Proleptic Gregorian calendar dates as Python's `datetime` handles them
 * (years 1 to 9999), the day arithmetic behind `now - timedelta(days=7)`,
 * and the two textual forms the dashboard uses: `%Y-%m-%d` for the keys of
 * the error ledger and `%Y%m%d` for the names of the archive folders.
 */
module Dates {
  import opened Wrappers
  import opened Text

  datatype Date = Date(year: int, month: int, day: int)

  /** A moment as `datetime.now()` gives it, to the second (microseconds play no part). */
  datatype DateTime = DateTime(date: Date, secondOfDay: int)

  const SecondsPerDay := 86400

  predicate IsLeapYear(y: int)
  {
    y % 4 == 0 && (y % 100 != 0 || y % 400 == 0)
  }

  function MonthLength(y: int, m: int): int
    requires 1 <= m <= 12
  {
    if m == 2 then (if IsLeapYear(y) then 29 else 28)
    else if m == 4 || m == 6 || m == 9 || m == 11 then 30
    else 31
  }

  /** The dates Python's `date` constructor accepts. */
  predicate IsValid(d: Date)
  {
    1 <= d.year <= 9999 && 1 <= d.month <= 12 && 1 <= d.day <= MonthLength(d.year, d.month)
  }

  predicate IsValidDateTime(t: DateTime)
  {
    IsValid(t.date) && 0 <= t.secondOfDay < SecondsPerDay
  }

  function YearLength(y: int): int
  {
    if IsLeapYear(y) then 366 else 365
  }

  /** Days from 0001-01-01 to January 1st of year `y`. */
  function DaysBeforeYear(y: int): nat
    requires y >= 1
  {
    if y == 1 then 0 else DaysBeforeYear(y - 1) + YearLength(y - 1)
  }

  /** Days from January 1st to the first of month `m` (13 stands for the next January). */
  function DaysBeforeMonth(y: int, m: int): int
    requires 1 <= m <= 13
  {
    [0, 31, 59, 90, 120, 151, 181, 212, 243, 273, 304, 334, 365][m - 1]
      + (if m > 2 && IsLeapYear(y) then 1 else 0)
  }

  /** Days elapsed since 0001-01-01 (Python's `date.toordinal() - 1`). */
  function DayNumber(d: Date): int
    requires IsValid(d)
  {
    DaysBeforeYear(d.year) + DaysBeforeMonth(d.year, d.month) + d.day - 1
  }

  /** Chronological order: by year, then month, then day. */
  predicate Before(a: Date, b: Date)
  {
    a.year < b.year
    || (a.year == b.year && (a.month < b.month || (a.month == b.month && a.day < b.day)))
  }

  lemma MonthStep(y: int, m: int)
    requires 1 <= m <= 12
    ensures DaysBeforeMonth(y, m + 1) == DaysBeforeMonth(y, m) + MonthLength(y, m)
  {
  }

  lemma {:induction false} DaysBeforeMonthMonotone(y: int, m: int, n: int)
    requires 1 <= m <= n <= 13
    ensures DaysBeforeMonth(y, m) <= DaysBeforeMonth(y, n)
    decreases n - m
  {
    if m < n {
      MonthStep(y, m);
      DaysBeforeMonthMonotone(y, m + 1, n);
    }
  }

  lemma {:induction false} DaysBeforeYearMonotone(y: int, z: int)
    requires 1 <= y <= z
    ensures DaysBeforeYear(y) + YearLength(y) <= DaysBeforeYear(z) || y == z
    ensures DaysBeforeYear(y) <= DaysBeforeYear(z)
    decreases z - y
  {
    if y < z {
      DaysBeforeYearMonotone(y, z - 1);
    }
  }

  /** A valid date falls inside its own year. */
  lemma DayNumberWithinYear(d: Date)
    requires IsValid(d)
    ensures DaysBeforeYear(d.year) <= DayNumber(d) < DaysBeforeYear(d.year) + YearLength(d.year)
  {
    MonthStep(d.year, d.month);
    DaysBeforeMonthMonotone(d.year, d.month + 1, 13);
  }

  lemma DayNumberBefore(a: Date, b: Date)
    requires IsValid(a) && IsValid(b) && Before(a, b)
    ensures DayNumber(a) < DayNumber(b)
  {
    if a.year < b.year {
      DayNumberWithinYear(a);
      DayNumberWithinYear(b);
      DaysBeforeYearMonotone(a.year, b.year);
    } else if a.month < b.month {
      MonthStep(a.year, a.month);
      DaysBeforeMonthMonotone(a.year, a.month + 1, b.month);
    }
  }

  /**
   * The day number orders valid dates chronologically, in both directions,
   * and tells different dates apart.
   */
  lemma DayNumberOrder(a: Date, b: Date)
    requires IsValid(a) && IsValid(b)
    ensures Before(a, b) <==> DayNumber(a) < DayNumber(b)
    ensures a == b <==> DayNumber(a) == DayNumber(b)
  {
    if Before(a, b) {
      DayNumberBefore(a, b);
    } else if Before(b, a) {
      DayNumberBefore(b, a);
    }
  }

  /** The day before `d`. */
  function PreviousDay(d: Date): (r: Date)
    requires IsValid(d) && DayNumber(d) > 0
    ensures IsValid(r) && DayNumber(r) == DayNumber(d) - 1
  {
    if d.day > 1 then Date(d.year, d.month, d.day - 1)
    else if d.month > 1 then
      MonthStep(d.year, d.month - 1);
      Date(d.year, d.month - 1, MonthLength(d.year, d.month - 1))
    else
      assert d.year > 1;
      MonthStep(d.year - 1, 12);
      Date(d.year - 1, 12, 31)
  }

  /** The date `n` days before `d` (the date part of `d - timedelta(days=n)`). */
  function DaysEarlier(d: Date, n: nat): (r: Date)
    requires IsValid(d) && DayNumber(d) >= n
    ensures IsValid(r) && DayNumber(r) == DayNumber(d) - n
  {
    if n == 0 then d else PreviousDay(DaysEarlier(d, n - 1))
  }

  /**
   * Python's `(now - midnight).days` for a date `d` taken at midnight: the
   * elapsed time floored to whole days.
   */
  function ElapsedDays(now: DateTime, d: Date): int
    requires IsValidDateTime(now) && IsValid(d)
  {
    ((DayNumber(now.date) - DayNumber(d)) * SecondsPerDay + now.secondOfDay) / SecondsPerDay
  }

  /** The time of day never changes the whole-day difference. */
  lemma ElapsedWholeDays(now: DateTime, d: Date)
    requires IsValidDateTime(now) && IsValid(d)
    ensures ElapsedDays(now, d) == DayNumber(now.date) - DayNumber(d)
  {
    var diff := DayNumber(now.date) - DayNumber(d);
    var total := diff * SecondsPerDay + now.secondOfDay;
    var q := total / SecondsPerDay;
    assert total == q * SecondsPerDay + total % SecondsPerDay;
    assert q == diff;
  }

  // ---------------------------------------------------------------------------
  // Textual forms

  /** `strftime("%Y-%m-%d")`: the key of a day in the error ledger. */
  function FormatIso(d: Date): (s: string)
    requires IsValid(d)
    ensures |s| == 10 && s[4] == '-' && s[7] == '-'
  {
    Padded(d.year, 4) + "-" + Padded(d.month, 2) + "-" + Padded(d.day, 2)
  }

  /** `strftime("%Y%m%d")`: the name of a day's archive folder. */
  function FormatCompact(d: Date): (s: string)
    requires IsValid(d)
    ensures |s| == 8 && AllDigits(s)
  {
    Padded(d.year, 4) + Padded(d.month, 2) + Padded(d.day, 2)
  }

  /**
   * `datetime.strptime(name, "%Y%m%d")` for a name already known to be eight
   * ASCII digits: the year takes the first four, and the month and the day
   * must then be two digits each (01-12 and 01-31, otherwise the pattern
   * leaves unconverted characters); the triple must also be a real date.
   */
  function ParseCompact(name: string): (r: Option<Date>)
    ensures r.Some? ==> IsValid(r.value)
  {
    if |name| == 8 && AllDigits(name) then
      var d := Date(Value(name[..4]), Value(name[4..6]), Value(name[6..]));
      if IsValid(d) then Some(d) else None
    else None
  }

  /** Parsing a folder name written for a date gives that date back. */
  lemma ParseFormatCompact(d: Date)
    requires IsValid(d)
    ensures ParseCompact(FormatCompact(d)) == Some(d)
  {
    var s := FormatCompact(d);
    assert s[..4] == Padded(d.year, 4);
    assert s[4..6] == Padded(d.month, 2);
    assert s[6..] == Padded(d.day, 2);
    ValueOfPadded(d.year, 4);
    ValueOfPadded(d.month, 2);
    ValueOfPadded(d.day, 2);
  }

  /** A name that parses is exactly the name written for its date. */
  lemma FormatParseCompact(name: string)
    requires ParseCompact(name).Some?
    ensures FormatCompact(ParseCompact(name).value) == name
  {
    var y, m, d := name[..4], name[4..6], name[6..];
    assert AllDigits(y) && AllDigits(m) && AllDigits(d);
    PaddedOfValue(y);
    PaddedOfValue(m);
    PaddedOfValue(d);
    assert |y| == 4 && |m| == 2 && |d| == 2;
    var date := Date(Value(y), Value(m), Value(d));
    assert ParseCompact(name) == Some(date);
    assert FormatCompact(date) == y + m + d;
    assert name == y + m + d;
  }

  /**
   * `%Y-%m-%d` strings sort as their dates: the comparison of ledger keys
   * with plain string `<` is a chronological comparison.
   */
  lemma IsoOrder(a: Date, b: Date)
    requires IsValid(a) && IsValid(b)
    ensures Less(FormatIso(a), FormatIso(b)) <==> Before(a, b)
  {
    var ya, yb := Padded(a.year, 4), Padded(b.year, 4);
    var ma, mb := Padded(a.month, 2), Padded(b.month, 2);
    var da, db := Padded(a.day, 2), Padded(b.day, 2);
    assert FormatIso(a) == ya + ("-" + (ma + ("-" + da)));
    assert FormatIso(b) == yb + ("-" + (mb + ("-" + db)));
    PaddedOrder(a.year, b.year, 4);
    PaddedOrder(b.year, a.year, 4);
    PaddedOrder(a.month, b.month, 2);
    PaddedOrder(b.month, a.month, 2);
    PaddedOrder(a.day, b.day, 2);
    LessConcat(ya, "-" + (ma + ("-" + da)), yb, "-" + (mb + ("-" + db)));
    LessConcat("-", ma + ("-" + da), "-", mb + ("-" + db));
    LessConcat(ma, "-" + da, mb, "-" + db);
    LessConcat("-", da, "-", db);
    LessIrreflexive(ya);
    LessIrreflexive(ma);
  }

  /** Equal `%Y-%m-%d` strings name equal dates. */
  lemma IsoInjective(a: Date, b: Date)
    requires IsValid(a) && IsValid(b) && FormatIso(a) == FormatIso(b)
    ensures a == b
  {
    LessIrreflexive(FormatIso(a));
    IsoOrder(a, b);
    IsoOrder(b, a);
  }

  /**
   * The ledger's window test `key >= cutoff` on a well-formed key is the
   * test "at most `n` days before today", with the cutoff written for
   * today minus `n` days.
   */
  lemma IsoWindow(today: Date, n: nat, d: Date)
    requires IsValid(today) && DayNumber(today) >= n && IsValid(d)
    ensures AtMost(FormatIso(DaysEarlier(today, n)), FormatIso(d))
        <==> DayNumber(d) >= DayNumber(today) - n
  {
    var c := DaysEarlier(today, n);
    Complement(FormatIso(c), FormatIso(d));
    IsoOrder(d, c);
    DayNumberOrder(d, c);
  }
}
