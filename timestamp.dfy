/**
 * `to_iso`: an epoch-seconds count (POSIX "Seconds Since the Epoch") rendered as the UTC
 * instant it denotes, in the ISO 8601 complete extended form `YYYY-MM-DDThh:mm:ss`.
 * Both parser scripts define it identically (body.py:32-37, ps_-axo_pid_user_etime_args.py:25-30):
 * `datetime.fromtimestamp(int(ts), timezone.utc).strftime(...)`, with any exception giving `None`.
 * `datetime` only represents years 1 to 9999, so instants outside them give `None` too.
 */
module Timestamp {
  import opened Wrappers
  import opened Text

  const SecondsPerDay := 86400
  /** Ordinal of 1970-01-01 in the proleptic Gregorian calendar, counting 0001-01-01 as day 1. */
  const EpochOrdinal := 719163
  /** Ordinal of 9999-12-31. */
  const MaxOrdinal := 3652059
  /** 0001-01-01T00:00:00 and 9999-12-31T23:59:59 in epoch seconds. */
  const MinEpoch := -62135596800
  const MaxEpoch := 253402300799

  // ---------------------------------------------------------------- the calendar

  predicate IsLeap(y: int) {
    y % 4 == 0 && (y % 100 != 0 || y % 400 == 0)
  }

  function DaysInMonth(y: int, m: int): int
    requires 1 <= m <= 12
  {
    if m == 2 then (if IsLeap(y) then 29 else 28)
    else if m == 4 || m == 6 || m == 9 || m == 11 then 30
    else 31
  }

  /** Days of year `y` before the first of month `m`; month 13 stands for the year's end. */
  function DaysBeforeMonth(y: int, m: int): int
    requires 1 <= m <= 13
  {
    [0, 31, 59, 90, 120, 151, 181, 212, 243, 273, 304, 334, 365][m - 1]
      + (if m > 2 && IsLeap(y) then 1 else 0)
  }

  /** Days before January 1 of year `y`, counted from 0001-01-01. */
  function DaysBeforeYear(y: int): int
    requires y >= 1
  {
    var p := y - 1;
    365 * p + p / 4 - p / 100 + p / 400
  }

  datatype Date = Date(year: int, month: int, day: int)

  predicate ValidDate(d: Date) {
    1 <= d.year <= 9999 && 1 <= d.month <= 12 && 1 <= d.day <= DaysInMonth(d.year, d.month)
  }

  /** The reference numbering of days: 0001-01-01 is 1, each later day one more. */
  function Ordinal(d: Date): int
    requires ValidDate(d)
  {
    DaysBeforeYear(d.year) + DaysBeforeMonth(d.year, d.month) + d.day
  }

  /** Year `400a + 100b + 4c + e + 1` starts after whole 400-, 100-, 4- and 1-year cycles. */
  lemma YearCycles(a: nat, b: nat, c: nat, e: nat)
    requires b <= 3 && c <= 24 && e <= 3
    ensures DaysBeforeYear(400 * a + 100 * b + 4 * c + e + 1)
         == 146097 * a + 36524 * b + 1461 * c + 365 * e
    ensures IsLeap(400 * a + 100 * b + 4 * c + e + 1) <==> e == 3 && (c != 24 || b == 3)
  {
    YearStart(a, b, c, e);
    YearLeap(a, b, c, e);
  }

  lemma YearStart(a: nat, b: nat, c: nat, e: nat)
    requires b <= 3 && c <= 24 && e <= 3
    ensures DaysBeforeYear(400 * a + 100 * b + 4 * c + e + 1)
         == 146097 * a + 36524 * b + 1461 * c + 365 * e
  {
    var p := 400 * a + 100 * b + 4 * c + e;
    assert p / 4 == 100 * a + 25 * b + c;
    assert p / 100 == 4 * a + b;
    assert p / 400 == a;
  }

  lemma YearLeap(a: nat, b: nat, c: nat, e: nat)
    requires b <= 3 && c <= 24 && e <= 3
    ensures IsLeap(400 * a + 100 * b + 4 * c + e + 1) <==> e == 3 && (c != 24 || b == 3)
  {
    var y := 400 * a + 100 * b + 4 * c + e + 1;
    if e < 3 {
      ModFour(y, 100 * a + 25 * b + c, e + 1);
    } else {
      ModFour(y, 100 * a + 25 * b + c + 1, 0);
      if c < 24 {
        ModHundred(y, 4 * a + b, 4 * (c + 1));
      } else {
        ModHundred(y, 4 * a + b + 1, 0);
        if b < 3 {
          ModFourHundred(y, a, 100 * (b + 1));
        } else {
          ModFourHundred(y, a + 1, 0);
        }
      }
    }
  }

  lemma ModFour(y: int, q: int, r: int)
    requires y == 4 * q + r && 0 <= r < 4
    ensures y % 4 == r
  {
  }

  lemma ModHundred(y: int, q: int, r: int)
    requires y == 100 * q + r && 0 <= r < 100
    ensures y % 100 == r
  {
  }

  lemma ModFourHundred(y: int, q: int, r: int)
    requires y == 400 * q + r && 0 <= r < 400
    ensures y % 400 == r
  {
  }

  /** The month holding day `r` (counted from 0) of year `y`, searched from month `m` on. */
  function MonthOf(y: int, r: int, m: int): (k: int)
    requires 1 <= m <= 12
    requires DaysBeforeMonth(y, m) <= r < DaysBeforeMonth(y, 13)
    ensures m <= k <= 12 && DaysBeforeMonth(y, k) <= r < DaysBeforeMonth(y, k + 1)
    decreases 12 - m
  {
    if r < DaysBeforeMonth(y, m + 1) then m else MonthOf(y, r, m + 1)
  }

  /**
   * The date with ordinal `n`: whole 400-, 100-, 4- and 1-year cycles fix the year, a scan
   * over the month table fixes the month.
   */
  function DateOf(n: int): Date
    requires 1 <= n <= MaxOrdinal
  {
    var n0 := n - 1;
    var r400 := n0 % 146097;
    var r100 := r400 % 36524;
    var r4 := r100 % 1461;
    DateOfCycles(n0 / 146097, r400 / 36524, r100 / 1461, r4 / 365, r4 % 365)
  }

  /**
   * The day `r1` (counted from 0) after `a`, `b`, `c`, `e` whole 400-, 100-, 4- and 1-year
   * cycles. The fourth year of a 4-year cycle and the 400th year of a 400-year cycle are leap
   * years whose last day shows as a fifth 1-year or fourth 100-year cycle.
   */
  function DateOfCycles(a: int, b: int, c: int, e: int, r1: int): Date
  {
    if e == 4 || b == 4 then
      Date(400 * a + 100 * b + 4 * c + e, 12, 31)
    else
      var y := 400 * a + 100 * b + 4 * c + e + 1;
      if 0 <= r1 < DaysBeforeMonth(y, 13) then
        var m := MonthOf(y, r1, 1);
        Date(y, m, r1 - DaysBeforeMonth(y, m) + 1)
      else
        Date(y, 12, 31)
  }

  /** The cycle counts of day `n0` (counted from 0) of years 1 to 9999. */
  lemma CycleBounds(n0: int)
    requires 0 <= n0 < MaxOrdinal
    ensures var a, r400 := n0 / 146097, n0 % 146097;
            var b, r100 := r400 / 36524, r400 % 36524;
            var c, r4 := r100 / 1461, r100 % 1461;
            var e, r1 := r4 / 365, r4 % 365;
            && n0 == 146097 * a + 36524 * b + 1461 * c + 365 * e + r1
            && InCycles(a, b, c, e, r1)
  {
  }

  /**
   * The cycle counts that occur in years 1 to 9999: a fifth 1-year or fourth 100-year cycle
   * only on the last day of a leap year, and nothing past 9999-12-31.
   */
  predicate InCycles(a: int, b: int, c: int, e: int, r1: int) {
    && 0 <= a <= 24 && 0 <= b <= 4 && 0 <= c <= 24 && 0 <= e <= 4 && 0 <= r1 < 365
    && (b == 4 ==> c == 0 && e == 0 && r1 == 0 && a <= 23)
    && (e == 4 ==> r1 == 0 && c <= 23)
    && (a == 24 ==> b <= 3 && (b == 3 ==> c <= 24 && (c == 24 ==> e <= 2)))
  }

  /** The day `r` (counted from 0) of year `y` found by the month scan. */
  lemma MonthDay(y: int, r: int)
    requires 1 <= y <= 9999 && 0 <= r < DaysBeforeMonth(y, 13)
    ensures var m := MonthOf(y, r, 1);
            && ValidDate(Date(y, m, r - DaysBeforeMonth(y, m) + 1))
            && Ordinal(Date(y, m, r - DaysBeforeMonth(y, m) + 1)) == DaysBeforeYear(y) + r + 1
  {
    var m := MonthOf(y, r, 1);
    assert DaysBeforeMonth(y, m + 1) == DaysBeforeMonth(y, m) + DaysInMonth(y, m);
  }

  /** December 31 of the leap year `y`. */
  lemma LastDayOfLeapYear(y: int)
    requires 1 <= y <= 9999 && IsLeap(y)
    ensures ValidDate(Date(y, 12, 31)) && Ordinal(Date(y, 12, 31)) == DaysBeforeYear(y) + 366
  {
  }

  /** `DateOfCycles` inverts the numbering for every in-range decomposition. */
  lemma DateOfCyclesCorrect(a: int, b: int, c: int, e: int, r1: int)
    requires InCycles(a, b, c, e, r1)
    ensures ValidDate(DateOfCycles(a, b, c, e, r1))
    ensures Ordinal(DateOfCycles(a, b, c, e, r1)) == 146097 * a + 36524 * b + 1461 * c + 365 * e + r1 + 1
  {
    if b == 4 {
      CenturiesCase(a, b, c, e, r1);
    } else if e == 4 {
      YearsCase(a, b, c, e, r1);
    } else {
      WithinYearCase(a, b, c, e, r1);
    }
  }

  lemma CenturiesCase(a: int, b: int, c: int, e: int, r1: int)
    requires InCycles(a, b, c, e, r1) && b == 4
    ensures ValidDate(DateOfCycles(a, b, c, e, r1))
    ensures Ordinal(DateOfCycles(a, b, c, e, r1)) == 146097 * a + 36524 * b + 1461 * c + 365 * e + r1 + 1
  {
    assert DateOfCycles(a, b, c, e, r1) == Date(400 * a + 400, 12, 31);
    LastDayOfCenturies(a);
  }

  lemma YearsCase(a: int, b: int, c: int, e: int, r1: int)
    requires InCycles(a, b, c, e, r1) && b != 4 && e == 4
    ensures ValidDate(DateOfCycles(a, b, c, e, r1))
    ensures Ordinal(DateOfCycles(a, b, c, e, r1)) == 146097 * a + 36524 * b + 1461 * c + 365 * e + r1 + 1
  {
    assert DateOfCycles(a, b, c, e, r1) == Date(400 * a + 100 * b + 4 * c + 4, 12, 31);
    LastDayOfYears(a, b, c);
  }

  lemma WithinYearCase(a: int, b: int, c: int, e: int, r1: int)
    requires InCycles(a, b, c, e, r1) && b != 4 && e != 4
    ensures ValidDate(DateOfCycles(a, b, c, e, r1))
    ensures Ordinal(DateOfCycles(a, b, c, e, r1)) == 146097 * a + 36524 * b + 1461 * c + 365 * e + r1 + 1
  {
    var y := 400 * a + 100 * b + 4 * c + e + 1;
    YearCycles(a, b, c, e);
    assert y <= 9999;
    var m := MonthOf(y, r1, 1);
    assert DateOfCycles(a, b, c, e, r1) == Date(y, m, r1 - DaysBeforeMonth(y, m) + 1);
    MonthDay(y, r1);
  }

  /** The last day of `a + 1` whole 400-year cycles. */
  lemma LastDayOfCenturies(a: int)
    requires 0 <= a <= 23
    ensures var y := 400 * a + 400;
            ValidDate(Date(y, 12, 31)) && Ordinal(Date(y, 12, 31)) == 146097 * a + 146097
  {
    YearCycles(a, 3, 24, 3);
    LastDayOfLeapYear(400 * a + 400);
  }

  /** The last day of `c + 1` whole 4-year cycles after `a` 400-year and `b` 100-year ones. */
  lemma LastDayOfYears(a: int, b: int, c: int)
    requires 0 <= a <= 24 && 0 <= b <= 3 && 0 <= c <= 23
    ensures var y := 400 * a + 100 * b + 4 * c + 4;
            ValidDate(Date(y, 12, 31)) && Ordinal(Date(y, 12, 31)) == 146097 * a + 36524 * b + 1461 * c + 1461
  {
    YearCycles(a, b, c, 3);
    LastDayOfLeapYear(400 * a + 100 * b + 4 * c + 4);
  }

  /** `DateOf` is the inverse of the reference numbering on years 1 to 9999. */
  lemma DateOfCorrect(n: int)
    requires 1 <= n <= MaxOrdinal
    ensures ValidDate(DateOf(n)) && Ordinal(DateOf(n)) == n
  {
    var a, b, c, e, r1 := CycleSplit(n);
    assert DateOf(n) == DateOfCycles(a, b, c, e, r1);
    DateOfCyclesCorrect(a, b, c, e, r1);
  }

  /** The cycle counts `DateOf` computes for day `n`, with the bounds they keep. */
  lemma CycleSplit(n: int) returns (a: int, b: int, c: int, e: int, r1: int)
    requires 1 <= n <= MaxOrdinal
    ensures var n0 := n - 1;
            var r400 := n0 % 146097;
            var r100 := r400 % 36524;
            var r4 := r100 % 1461;
            a == n0 / 146097 && b == r400 / 36524 && c == r100 / 1461 && e == r4 / 365 && r1 == r4 % 365
    ensures InCycles(a, b, c, e, r1)
    ensures n == 146097 * a + 36524 * b + 1461 * c + 365 * e + r1 + 1
  {
    var n0 := n - 1;
    CycleBounds(n0);
    var r400 := n0 % 146097;
    var r100 := r400 % 36524;
    var r4 := r100 % 1461;
    a, b, c, e, r1 := n0 / 146097, r400 / 36524, r100 / 1461, r4 / 365, r4 % 365;
  }

  // ---------------------------------------------------------------- instants and their rendering

  datatype DateTime = DateTime(date: Date, hour: int, minute: int, second: int)

  predicate ValidDateTime(dt: DateTime) {
    ValidDate(dt.date) && 0 <= dt.hour < 24 && 0 <= dt.minute < 60 && 0 <= dt.second < 60
  }

  /** The UTC calendar date and clock time of epoch second `t` (whole days counted with floor division). */
  function Civil(t: int): (dt: DateTime)
    requires MinEpoch <= t <= MaxEpoch
    ensures ValidDateTime(dt)
  {
    var days, secs := t / SecondsPerDay, t % SecondsPerDay;
    DateOfCorrect(days + EpochOrdinal);
    DateTime(DateOf(days + EpochOrdinal), secs / 3600, secs % 3600 / 60, secs % 60)
  }

  /** `strftime('%Y-%m-%dT%H:%M:%S')`, the year padded to four digits. */
  function Format(dt: DateTime): (s: string)
    requires ValidDateTime(dt)
  {
    IsoText(Pad(dt.date.year, 4), Pad(dt.date.month, 2), Pad(dt.date.day, 2),
            Pad(dt.hour, 2), Pad(dt.minute, 2), Pad(dt.second, 2))
  }

  /** The printed fields between the separators of the extended format. */
  function IsoText(y: string, mo: string, d: string, h: string, mi: string, se: string): string {
    y + "-" + mo + "-" + d + "T" + h + ":" + mi + ":" + se
  }

  /** `StatLogParser.to_iso` / `PsAxoLogParser.to_iso`: `None` whenever `int()` or `datetime` would raise. */
  function ToIso(ts: string): Option<string> {
    match PyInt(ts)
    case None => None
    case Some(t) => if MinEpoch <= t <= MaxEpoch then Some(Format(Civil(t))) else None
  }

  /** The rendering of epoch second `t` when it falls in years 1 to 9999. */
  function EpochIso(t: int): Option<string> {
    if MinEpoch <= t <= MaxEpoch then Some(Format(Civil(t))) else None
  }

  /** `to_iso(str(t))` renders `t` itself. */
  lemma ToIsoOfDecimal(t: int)
    ensures ToIso(IntToString(t)) == EpochIso(t)
  {
    PyIntOfString(t);
  }

  // ---------------------------------------------------------------- reading a rendered instant back

  /** The `YYYY-MM-DDThh:mm:ss` shape: nineteen characters, digits between the separators. */
  predicate IsoShape(s: string) {
    && |s| == 19 && s[4] == '-' && s[7] == '-' && s[10] == 'T' && s[13] == ':' && s[16] == ':'
    && AllDigits(s[0..4]) && AllDigits(s[5..7]) && AllDigits(s[8..10])
    && AllDigits(s[11..13]) && AllDigits(s[14..16]) && AllDigits(s[17..19])
  }

  /** The fields of a text of that shape, as numbers. */
  function IsoFields(s: string): DateTime
    requires IsoShape(s)
  {
    DateTime(Date(DigitsValue(s[0..4]), DigitsValue(s[5..7]), DigitsValue(s[8..10])),
             DigitsValue(s[11..13]), DigitsValue(s[14..16]), DigitsValue(s[17..19]))
  }

  /** The epoch second of a valid date-time, computed with the reference day numbering. */
  function EpochOf(dt: DateTime): int
    requires ValidDateTime(dt)
  {
    (Ordinal(dt.date) - EpochOrdinal) * SecondsPerDay + dt.hour * 3600 + dt.minute * 60 + dt.second
  }

  /**
   * The epoch second a `YYYY-MM-DDThh:mm:ss` text denotes; `None` for text of another shape
   * or a date or time that does not exist.
   */
  function ParseIso(s: string): Option<int> {
    if IsoShape(s) && ValidDateTime(IsoFields(s)) then Some(EpochOf(IsoFields(s))) else None
  }

  /** Where each field of a rendered date-time sits. */
  lemma FormatLayout(dt: DateTime)
    requires ValidDateTime(dt)
    ensures var s := Format(dt);
            && |s| == 19 && s[4] == '-' && s[7] == '-' && s[10] == 'T' && s[13] == ':' && s[16] == ':'
            && s[0..4] == Pad(dt.date.year, 4) && s[5..7] == Pad(dt.date.month, 2)
            && s[8..10] == Pad(dt.date.day, 2) && s[11..13] == Pad(dt.hour, 2)
            && s[14..16] == Pad(dt.minute, 2) && s[17..19] == Pad(dt.second, 2)
  {
    IsoTextLayout(Pad(dt.date.year, 4), Pad(dt.date.month, 2), Pad(dt.date.day, 2),
                  Pad(dt.hour, 2), Pad(dt.minute, 2), Pad(dt.second, 2));
  }

  /** Four characters of year and two of each other field put every field at a fixed place. */
  lemma IsoTextLayout(y: string, mo: string, d: string, h: string, mi: string, se: string)
    requires |y| == 4 && |mo| == 2 && |d| == 2 && |h| == 2 && |mi| == 2 && |se| == 2
    ensures var s := IsoText(y, mo, d, h, mi, se);
            && |s| == 19 && s[4] == '-' && s[7] == '-' && s[10] == 'T' && s[13] == ':' && s[16] == ':'
            && s[0..4] == y && s[5..7] == mo && s[8..10] == d
            && s[11..13] == h && s[14..16] == mi && s[17..19] == se
  {
    var p1 := y + "-";
    var p2 := p1 + mo + "-";
    var p3 := p2 + d + "T";
    var p4 := p3 + h + ":";
    var p5 := p4 + mi + ":";
    var s := p5 + se;
    assert s == IsoText(y, mo, d, h, mi, se);
    assert s[0..4] == p1[0..4] == y;
    assert s[5..7] == p2[5..7] == mo;
    assert s[8..10] == p3[8..10] == d;
    assert s[11..13] == p4[11..13] == h;
    assert s[14..16] == p5[14..16] == mi;
    assert s[17..19] == se;
  }

  /** Reading back a rendered date-time gives its fields. */
  lemma ParseFormat(dt: DateTime)
    requires ValidDateTime(dt)
    ensures IsoShape(Format(dt)) && IsoFields(Format(dt)) == dt
    ensures ParseIso(Format(dt)) == Some(EpochOf(dt))
  {
    var y, mo, d := Pad(dt.date.year, 4), Pad(dt.date.month, 2), Pad(dt.date.day, 2);
    var h, mi, se := Pad(dt.hour, 2), Pad(dt.minute, 2), Pad(dt.second, 2);
    IsoTextFields(y, mo, d, h, mi, se);
    assert Pow10(2) == 100 && Pow10(4) == 10000;
    assert DigitsValue(y) == dt.date.year && DigitsValue(mo) == dt.date.month && DigitsValue(d) == dt.date.day;
    assert DigitsValue(h) == dt.hour && DigitsValue(mi) == dt.minute && DigitsValue(se) == dt.second;
  }

  /** Digit fields of the right widths read back as the numbers they spell. */
  lemma IsoTextFields(y: string, mo: string, d: string, h: string, mi: string, se: string)
    requires |y| == 4 && |mo| == 2 && |d| == 2 && |h| == 2 && |mi| == 2 && |se| == 2
    requires AllDigits(y) && AllDigits(mo) && AllDigits(d) && AllDigits(h) && AllDigits(mi) && AllDigits(se)
    ensures var s := IsoText(y, mo, d, h, mi, se);
            && IsoShape(s)
            && IsoFields(s) == DateTime(Date(DigitsValue(y), DigitsValue(mo), DigitsValue(d)),
                                        DigitsValue(h), DigitsValue(mi), DigitsValue(se))
  {
    IsoTextLayout(y, mo, d, h, mi, se);
  }

  /** The calendar fields of an instant count back to that instant. */
  lemma CivilEpoch(t: int)
    requires MinEpoch <= t <= MaxEpoch
    ensures EpochOf(Civil(t)) == t
  {
    var days, secs := CivilFields(t);
    DateOfCorrect(days + EpochOrdinal);
    ClockSplit(secs);
    EpochOfParts(Civil(t), days, secs);
  }

  /** The day after the epoch and the second of that day that `Civil` reads the instant as. */
  lemma CivilFields(t: int) returns (days: int, secs: int)
    requires MinEpoch <= t <= MaxEpoch
    ensures t == days * SecondsPerDay + secs && 0 <= secs < SecondsPerDay
    ensures 1 <= days + EpochOrdinal <= MaxOrdinal
    ensures Civil(t) == DateTime(DateOf(days + EpochOrdinal), secs / 3600, secs % 3600 / 60, secs % 60)
  {
    days, secs := t / SecondsPerDay, t % SecondsPerDay;
  }

  /** A date-time on day `days` after the epoch, at second `secs` of that day. */
  lemma EpochOfParts(dt: DateTime, days: int, secs: int)
    requires ValidDateTime(dt) && Ordinal(dt.date) - EpochOrdinal == days
    requires dt.hour * 3600 + dt.minute * 60 + dt.second == secs
    ensures EpochOf(dt) == days * SecondsPerDay + secs
  {
  }

  /** Hours, minutes and seconds of a second of the day add back up to it. */
  lemma ClockSplit(secs: int)
    requires 0 <= secs < SecondsPerDay
    ensures secs / 3600 * 3600 + secs % 3600 / 60 * 60 + secs % 60 == secs
  {
  }

  /**
   * `to_iso` answers precisely for integer text whose instant falls in years 1 to 9999, and
   * the text it returns reads back, through the reference calendar, as that same epoch second.
   */
  lemma ToIsoDenotes(ts: string)
    ensures ToIso(ts).Some? <==> PyInt(ts).Some? && MinEpoch <= PyInt(ts).value <= MaxEpoch
    ensures ToIso(ts).Some? ==> |ToIso(ts).value| == 19 && ParseIso(ToIso(ts).value) == PyInt(ts)
  {
    if ToIso(ts).Some? {
      var t := PyInt(ts).value;
      ParseFormat(Civil(t));
      FormatLayout(Civil(t));
      CivilEpoch(t);
    }
  }

  /** Two texts `to_iso` renders the same way name the same epoch second. */
  lemma ToIsoInjective(ts1: string, ts2: string)
    requires ToIso(ts1).Some? && ToIso(ts1) == ToIso(ts2)
    ensures PyInt(ts1) == PyInt(ts2)
  {
    ToIsoDenotes(ts1);
    ToIsoDenotes(ts2);
  }

  /** A two-digit field prints as its tens digit then its units digit. */
  lemma PadTwo(n: nat)
    requires n < 100
    ensures Pad(n, 2) == [Digit(n / 10), Digit(n % 10)]
  {
  }

  /** The epoch itself renders as 1970-01-01T00:00:00. */
  lemma ToIsoOfEpoch()
    ensures ToIso("0") == Some("1970-01-01T00:00:00")
  {
    PyIntDigits("0");
    EpochCivil();
    EpochFormat();
  }

  lemma EpochCivil()
    ensures Civil(0) == DateTime(Date(1970, 1, 1), 0, 0, 0)
  {
    EpochDate();
    CivilOf(0, 0, 0, Date(1970, 1, 1), 0, 0, 0);
  }

  /** The epoch's own day is 1970-01-01. */
  lemma EpochDate()
    ensures DateOf(0 + EpochOrdinal) == Date(1970, 1, 1)
  {
    assert DateOf(0 + EpochOrdinal) == DateOfCycles(4, 3, 17, 1, 0) by {
      assert (EpochOrdinal - 1) / 146097 == 4 && (EpochOrdinal - 1) % 146097 == 134774;
      assert 134774 / 36524 == 3 && 134774 % 36524 == 25202;
      assert 25202 / 1461 == 17 && 25202 % 1461 == 365;
      assert 365 / 365 == 1 && 365 % 365 == 0;
    }
    EpochMonth();
  }

  lemma EpochMonth()
    ensures DateOfCycles(4, 3, 17, 1, 0) == Date(1970, 1, 1)
  {
    assert DaysBeforeMonth(1970, 13) == 365;
    assert MonthOf(1970, 0, 1) == 1;
  }

  lemma EpochFormat()
    ensures Format(DateTime(Date(1970, 1, 1), 0, 0, 0)) == "1970-01-01T00:00:00"
  {
    assert Pad(1970, 4) == "1970";
    assert Pad(1, 2) == "01" by { PadTwo(1); }
    assert Pad(0, 2) == "00" by { PadTwo(0); }
    assert Format(DateTime(Date(1970, 1, 1), 0, 0, 0)) == IsoText("1970", "01", "01", "00", "00", "00");
    EpochText();
  }

  lemma EpochText()
    ensures IsoText("1970", "01", "01", "00", "00", "00") == "1970-01-01T00:00:00"
  {
  }

  /** The digits of the example birth time read as the number they spell. */
  lemma ExampleDigits()
    ensures DigitsValue("1699990000") == 1699990000
  {
    assert DigitsValue("1") == 1;
    assert DigitsValue("16") == 16 by { assert "16"[..1] == "1"; }
    assert DigitsValue("169") == 169 by { assert "169"[..2] == "16"; }
    assert DigitsValue("1699") == 1699 by { assert "1699"[..3] == "169"; }
    assert DigitsValue("16999") == 16999 by { assert "16999"[..4] == "1699"; }
    assert DigitsValue("169999") == 169999 by { assert "169999"[..5] == "16999"; }
    assert DigitsValue("1699990") == 1699990 by { assert "1699990"[..6] == "169999"; }
    assert DigitsValue("16999900") == 16999900 by { assert "16999900"[..7] == "1699990"; }
    assert DigitsValue("169999000") == 169999000 by { assert "169999000"[..8] == "16999900"; }
    assert "1699990000"[..9] == "169999000";
  }

  lemma ExampleCivil()
    ensures Civil(1699990000) == DateTime(Date(2023, 11, 14), 19, 26, 40)
  {
    ExampleDate();
    CivilOf(1699990000, 19675, 70000, Date(2023, 11, 14), 19, 26, 40);
  }

  /** The instant `t` whose date and clock time are known. */
  lemma CivilOf(t: int, days: int, secs: int, d: Date, hour: int, minute: int, second: int)
    requires MinEpoch <= t <= MaxEpoch
    requires t == days * SecondsPerDay + secs && 0 <= secs < SecondsPerDay
    requires DateOf(days + EpochOrdinal) == d
    requires secs / 3600 == hour && secs % 3600 / 60 == minute && secs % 60 == second
    ensures Civil(t) == DateTime(d, hour, minute, second)
  {
    assert t / SecondsPerDay == days && t % SecondsPerDay == secs;
  }

  /** Day 19675 after the epoch is 2023-11-14. */
  lemma ExampleDate()
    ensures DateOf(19675 + EpochOrdinal) == Date(2023, 11, 14)
  {
    assert DateOf(19675 + EpochOrdinal) == DateOfCycles(5, 0, 5, 2, 317) by {
      assert 738837 / 146097 == 5 && 738837 % 146097 == 8352;
      assert 8352 / 36524 == 0 && 8352 % 36524 == 8352;
      assert 8352 / 1461 == 5 && 8352 % 1461 == 1047;
      assert 1047 / 365 == 2 && 1047 % 365 == 317;
    }
    ExampleMonth();
  }

  lemma ExampleMonth()
    ensures DateOfCycles(5, 0, 5, 2, 317) == Date(2023, 11, 14)
  {
    assert DaysBeforeMonth(2023, 13) == 365;
    assert MonthOf(2023, 317, 1) == 11;
  }

  lemma ExampleFormat()
    ensures Format(DateTime(Date(2023, 11, 14), 19, 26, 40)) == "2023-11-14T19:26:40"
  {
    assert Pad(2023, 4) == "2023";
    assert Pad(11, 2) == "11" by { PadTwo(11); }
    assert Pad(14, 2) == "14" by { PadTwo(14); }
    assert Pad(19, 2) == "19" by { PadTwo(19); }
    assert Pad(26, 2) == "26" by { PadTwo(26); }
    assert Pad(40, 2) == "40" by { PadTwo(40); }
    assert Format(DateTime(Date(2023, 11, 14), 19, 26, 40)) == IsoText("2023", "11", "14", "19", "26", "40");
    ExampleText();
  }

  lemma ExampleText()
    ensures IsoText("2023", "11", "14", "19", "26", "40") == "2023-11-14T19:26:40"
  {
  }

  /** The instant 1699990000, the birth time of the example stat line, is 2023-11-14T19:26:40. */
  lemma ToIsoOfExample()
    ensures ToIso("1699990000") == Some("2023-11-14T19:26:40")
  {
    PyIntDigits("1699990000");
    ExampleDigits();
    ExampleCivil();
    ExampleFormat();
  }

  /** Non-integer text gives `None`: `int("1.5")` raises. */
  lemma ToIsoRejectsFraction()
    ensures ToIso("1.5") == None
  {
    PyIntRejectsFraction();
  }
  /** Empty text gives `None`: `int("")` raises. */
  lemma ToIsoRejectsEmpty()
    ensures ToIso("") == None
  {
    StripEmpty("");
  }

  /** The digits of 1700000000 read as the number they spell. */
  lemma LaterDigits()
    ensures DigitsValue("1700000000") == 1700000000
  {
    assert DigitsValue("1") == 1;
    assert DigitsValue("17") == 17 by { assert "17"[..1] == "1"; }
    assert DigitsValue("170") == 170 by { assert "170"[..2] == "17"; }
    assert DigitsValue("1700") == 1700 by { assert "1700"[..3] == "170"; }
    assert DigitsValue("17000") == 17000 by { assert "17000"[..4] == "1700"; }
    assert DigitsValue("170000") == 170000 by { assert "170000"[..5] == "17000"; }
    assert DigitsValue("1700000") == 1700000 by { assert "1700000"[..6] == "170000"; }
    assert DigitsValue("17000000") == 17000000 by { assert "17000000"[..7] == "1700000"; }
    assert DigitsValue("170000000") == 170000000 by { assert "170000000"[..8] == "17000000"; }
    assert "1700000000"[..9] == "170000000";
  }

  /** 1700000000 falls on the same day as the example birth time, at 22:13:20. */
  lemma LaterCivil()
    ensures Civil(1700000000) == DateTime(Date(2023, 11, 14), 22, 13, 20)
  {
    ExampleDate();
    CivilOf(1700000000, 19675, 80000, Date(2023, 11, 14), 22, 13, 20);
  }

  lemma LaterFormat()
    ensures Format(DateTime(Date(2023, 11, 14), 22, 13, 20)) == "2023-11-14T22:13:20"
  {
    assert Pad(2023, 4) == "2023";
    assert Pad(11, 2) == "11" by { PadTwo(11); }
    assert Pad(14, 2) == "14" by { PadTwo(14); }
    assert Pad(22, 2) == "22" by { PadTwo(22); }
    assert Pad(13, 2) == "13" by { PadTwo(13); }
    assert Pad(20, 2) == "20" by { PadTwo(20); }
    assert Format(DateTime(Date(2023, 11, 14), 22, 13, 20)) == IsoText("2023", "11", "14", "22", "13", "20");
    LaterText();
  }

  lemma LaterText()
    ensures IsoText("2023", "11", "14", "22", "13", "20") == "2023-11-14T22:13:20"
  {
  }

  /** The instant 1700000000 is 2023-11-14T22:13:20. */
  lemma ToIsoOfLater()
    ensures ToIso("1700000000") == Some("2023-11-14T22:13:20")
  {
    PyIntDigits("1700000000");
    LaterDigits();
    LaterCivil();
    LaterFormat();
  }
}
