/**
 * Naive datetimes (no time zone) on the proleptic Gregorian calendar, as
 * Python's `datetime` has them: years 1 to 9999, whole seconds.  A datetime
 * is an `Instant`, the signed number of seconds since 1970-01-01 00:00:00;
 * `DateTime` holds the calendar fields.  The two directions are proved to be
 * inverse, and so are the `strftime`/`strptime` renderings used by the scripts.
 */
module Calendar {
  import opened Wrappers
  import opened PyText

  const MaxYear: int := 9999

  predicate IsLeap(y: int) {
    y % 4 == 0 && (y % 100 != 0 || y % 400 == 0)
  }

  function YearLength(y: int): nat {
    if IsLeap(y) then 366 else 365
  }

  function DaysInMonth(y: int, m: int): nat
    requires 1 <= m <= 12
  {
    if m == 2 then (if IsLeap(y) then 29 else 28)
    else if m == 4 || m == 6 || m == 9 || m == 11 then 30
    else 31
  }

  /** Days of year `y` before the first of month `m`. */
  function DaysBeforeMonth(y: int, m: int): nat
    requires 1 <= m <= 12
  {
    (if m == 1 then 0 else if m == 2 then 31 else if m == 3 then 59
     else if m == 4 then 90 else if m == 5 then 120 else if m == 6 then 151
     else if m == 7 then 181 else if m == 8 then 212 else if m == 9 then 243
     else if m == 10 then 273 else if m == 11 then 304 else 334)
    + (if m > 2 && IsLeap(y) then 1 else 0)
  }

  /** Days before 1 January of year `y`, counted from 1 January of year 1. */
  function DaysBeforeYear(y: int): int
    requires y >= 1
  {
    var n := y - 1;
    365 * n + n / 4 - n / 100 + n / 400
  }

  /** A multiple of 400 is one of 100, and a multiple of 100 one of 4. */
  lemma LeapDivisors(y: int)
    ensures y % 400 == 0 ==> y % 100 == 0
    ensures y % 100 == 0 ==> y % 4 == 0
  {
    if y % 400 == 0 {
      var k := y / 400;
      assert y == 100 * (4 * k);
    }
    if y % 100 == 0 {
      var k := y / 100;
      assert y == 4 * (25 * k);
    }
  }

  /** `(n + 1) / d` grows by one exactly when `d` divides `n + 1`. */
  lemma DivStep(n: nat)
    ensures (n + 1) / 4 == n / 4 + (if (n + 1) % 4 == 0 then 1 else 0)
    ensures (n + 1) / 100 == n / 100 + (if (n + 1) % 100 == 0 then 1 else 0)
    ensures (n + 1) / 400 == n / 400 + (if (n + 1) % 400 == 0 then 1 else 0)
  {
    var q4, q100, q400 := n / 4, n / 100, n / 400;
    assert n == 4 * q4 + n % 4 && n == 100 * q100 + n % 100 && n == 400 * q400 + n % 400;
    if n % 4 == 3 { assert n + 1 == 4 * (q4 + 1); } else { assert n + 1 == 4 * q4 + (n % 4 + 1); }
    if n % 100 == 99 { assert n + 1 == 100 * (q100 + 1); } else { assert n + 1 == 100 * q100 + (n % 100 + 1); }
    if n % 400 == 399 { assert n + 1 == 400 * (q400 + 1); } else { assert n + 1 == 400 * q400 + (n % 400 + 1); }
  }

  lemma DaysBeforeNextYear(y: int)
    requires y >= 1
    ensures DaysBeforeYear(y + 1) == DaysBeforeYear(y) + YearLength(y)
  {
    var n := y - 1;
    DivStep(n);
    LeapDivisors(y);
    assert YearLength(y) == 365 + (if y % 4 == 0 then 1 else 0) - (if y % 100 == 0 then 1 else 0) + (if y % 400 == 0 then 1 else 0);
  }

  /** Later years start later, by at least one year's length. */
  lemma {:induction false} DaysBeforeYearGrows(a: int, b: int)
    requires 1 <= a < b
    ensures DaysBeforeYear(a) + YearLength(a) <= DaysBeforeYear(b)
    decreases b - a
  {
    DaysBeforeNextYear(a);
    if a + 1 < b {
      DaysBeforeYearGrows(a + 1, b);
    }
  }

  lemma DaysBeforeMonthGrows(y: int, a: int, b: int)
    requires 1 <= a < b <= 12
    ensures DaysBeforeMonth(y, a) + DaysInMonth(y, a) <= DaysBeforeMonth(y, b)
  {
  }

  /** The year holding day `n` (0-based) counted from 1 January of `y`, and the day within it. */
  function YearFrom(y: int, n: nat): (r: (int, nat))
    requires y >= 1
    ensures r.0 >= y && r.1 < YearLength(r.0)
    ensures DaysBeforeYear(r.0) + r.1 == DaysBeforeYear(y) + n
    decreases n
  {
    if n < YearLength(y) then (y, n)
    else
      DaysBeforeNextYear(y);
      YearFrom(y + 1, n - YearLength(y))
  }

  /** The month holding day `n` (0-based) counted from the first of month `m` of year `y`, and the day of that month. */
  function MonthFrom(y: int, m: int, n: nat): (r: (int, int))
    requires 1 <= m <= 12
    requires DaysBeforeMonth(y, m) + n < YearLength(y)
    ensures m <= r.0 <= 12 && 1 <= r.1 <= DaysInMonth(y, r.0)
    ensures DaysBeforeMonth(y, r.0) + r.1 - 1 == DaysBeforeMonth(y, m) + n
    decreases 12 - m
  {
    if m == 12 || n < DaysInMonth(y, m) then (m, n + 1)
    else MonthFrom(y, m + 1, n - DaysInMonth(y, m))
  }

  datatype DateTime = DateTime(year: int, month: int, day: int, hour: int, minute: int, second: int)

  /** Fields Python's `datetime` accepts: year 1..9999 and a real date and time of day. */
  predicate ValidDateTime(c: DateTime) {
    && 1 <= c.year <= MaxYear
    && 1 <= c.month <= 12
    && 1 <= c.day <= DaysInMonth(c.year, c.month)
    && 0 <= c.hour < 24 && 0 <= c.minute < 60 && 0 <= c.second < 60
  }

  /** `date.toordinal()`: 1 January of year 1 is day 1. */
  function Ordinal(y: int, m: int, d: int): int
    requires 1 <= y && 1 <= m <= 12
  {
    DaysBeforeYear(y) + DaysBeforeMonth(y, m) + d
  }

  const EpochOrdinal: int := 719163
  const MaxOrdinal: int := 3652059
  /** A day has 86400 seconds; the instants of 0001-01-01 00:00:00 and 9999-12-31 23:59:59. */
  const MinInstant: int := (1 - EpochOrdinal) * 86400
  const MaxInstant: int := (MaxOrdinal - EpochOrdinal) * 86400 + 86400 - 1

  /** A datetime Python can represent, as seconds since 1970-01-01 00:00:00. */
  type Instant = t: int | MinInstant <= t <= MaxInstant

  /** `datetime + timedelta` stays within years 1..9999 (else `OverflowError`). */
  predicate InRange(x: int) {
    MinInstant <= x <= MaxInstant
  }

  lemma OrdinalConstants()
    ensures Ordinal(1970, 1, 1) == EpochOrdinal
    ensures Ordinal(MaxYear, 12, 31) == MaxOrdinal
    ensures DaysBeforeYear(MaxYear + 1) == MaxOrdinal
  {
  }

  lemma OrdinalInRange(y: int, m: int, d: int)
    requires ValidDateTime(DateTime(y, m, d, 0, 0, 0))
    ensures 1 <= Ordinal(y, m, d) <= MaxOrdinal
  {
    if m < 12 {
      DaysBeforeMonthGrows(y, m, 12);
    }
    if y < MaxYear {
      DaysBeforeYearGrows(y, MaxYear);
    }
    OrdinalConstants();
  }

  function SecondOfDay(c: DateTime): int {
    c.hour * 3600 + c.minute * 60 + c.second
  }

  /** The instant at which the calendar fields `c` fall. */
  function ToInstant(c: DateTime): (t: Instant)
    requires ValidDateTime(c)
  {
    OrdinalInRange(c.year, c.month, c.day);
    (Ordinal(c.year, c.month, c.day) - EpochOrdinal) * 86400 + SecondOfDay(c)
  }

  /** The date falling on ordinal day `ord`. */
  function DateOfOrdinal(ord: int): (r: (int, int, int))
    requires 1 <= ord <= MaxOrdinal
    ensures ValidDateTime(DateTime(r.0, r.1, r.2, 0, 0, 0))
    ensures Ordinal(r.0, r.1, r.2) == ord
  {
    var (y, dayOfYear) := YearFrom(1, ord - 1);
    assert y <= MaxYear by {
      if y > MaxYear {
        if y > MaxYear + 1 {
          DaysBeforeYearGrows(MaxYear + 1, y);
        }
        OrdinalConstants();
      }
    }
    var (m, d) := MonthFrom(y, 1, dayOfYear);
    (y, m, d)
  }

  /** Division by the length of a day, stated by its quotient and remainder. */
  lemma DayDivMod(x: int, q: int, r: int)
    requires x == q * 86400 + r && 0 <= r < 86400
    ensures x / 86400 == q && x % 86400 == r
  {
  }

  /** A second of the day splits into an hour, a minute and a second that add up to it. */
  lemma ClockSplit(sod: int)
    requires 0 <= sod < 86400
    ensures 0 <= sod / 3600 < 24 && 0 <= sod % 3600 / 60 < 60 && 0 <= sod % 60 < 60
    ensures sod / 3600 * 3600 + sod % 3600 / 60 * 60 + sod % 60 == sod
  {
    var h, r := sod / 3600, sod % 3600;
    assert sod == 3600 * h + r;
    var mi, s := r / 60, r % 60;
    assert r == 60 * mi + s;
    assert sod == 60 * (60 * h + mi) + s;
  }

  /** An hour, a minute and a second are recovered from the second of the day they make. */
  lemma ClockFields(h: int, mi: int, s: int)
    requires 0 <= h < 24 && 0 <= mi < 60 && 0 <= s < 60
    ensures var sod := h * 3600 + mi * 60 + s;
            0 <= sod < 86400 && sod / 3600 == h && sod % 3600 / 60 == mi && sod % 60 == s
  {
    var r := mi * 60 + s;
    var sod := h * 3600 + r;
    assert 0 <= r < 3600;
    assert sod / 3600 == h && sod % 3600 == r;
    assert r / 60 == mi && r % 60 == s;
    assert sod == 60 * (60 * h + mi) + s;
    assert sod % 60 == s;
  }

  /** The calendar fields of instant `t`: the inverse of `ToInstant`. */
  function FromInstant(t: Instant): (c: DateTime)
    ensures ValidDateTime(c)
    ensures ToInstant(c) == t
  {
    var x := t - MinInstant;
    var ord := x / 86400 + 1;
    var sod := x % 86400;
    assert x == (ord - 1) * 86400 + sod;
    assert 1 <= ord <= MaxOrdinal;
    ClockSplit(sod);
    var (y, m, d) := DateOfOrdinal(ord);
    DateTime(y, m, d, sod / 3600, sod % 3600 / 60, sod % 60)
  }

  /** Two valid dates with the same ordinal are the same date. */
  lemma OrdinalInjective(y1: int, m1: int, d1: int, y2: int, m2: int, d2: int)
    requires ValidDateTime(DateTime(y1, m1, d1, 0, 0, 0))
    requires ValidDateTime(DateTime(y2, m2, d2, 0, 0, 0))
    requires Ordinal(y1, m1, d1) == Ordinal(y2, m2, d2)
    ensures y1 == y2 && m1 == m2 && d1 == d2
  {
    if y1 < y2 {
      DaysBeforeYearGrows(y1, y2);
      if m1 < 12 {
        DaysBeforeMonthGrows(y1, m1, 12);
      }
      assert false;
    } else if y2 < y1 {
      DaysBeforeYearGrows(y2, y1);
      if m2 < 12 {
        DaysBeforeMonthGrows(y2, m2, 12);
      }
      assert false;
    }
    if m1 < m2 {
      DaysBeforeMonthGrows(y1, m1, m2);
    } else if m2 < m1 {
      DaysBeforeMonthGrows(y1, m2, m1);
    }
  }

  /** `ToInstant` loses nothing: every valid `DateTime` comes back from its instant. */
  lemma FromToInstant(c: DateTime)
    requires ValidDateTime(c)
    ensures FromInstant(ToInstant(c)) == c
  {
    var t := ToInstant(c);
    OrdinalInRange(c.year, c.month, c.day);
    var q := Ordinal(c.year, c.month, c.day) - 1;
    var sod := SecondOfDay(c);
    ClockFields(c.hour, c.minute, c.second);
    assert t - MinInstant == q * 86400 + sod;
    DayDivMod(t - MinInstant, q, sod);
    var r := DateOfOrdinal(q + 1);
    var c' := FromInstant(t);
    assert c' == DateTime(r.0, r.1, r.2, sod / 3600, sod % 3600 / 60, sod % 60);
    OrdinalInjective(c.year, c.month, c.day, r.0, r.1, r.2);
  }

  lemma ToInstantInjective(c1: DateTime, c2: DateTime)
    requires ValidDateTime(c1) && ValidDateTime(c2)
    requires ToInstant(c1) == ToInstant(c2)
    ensures c1 == c2
  {
    FromToInstant(c1);
    FromToInstant(c2);
  }

  // ---------------------------------------------------------------------
  // Rendering and reading fixed-width fields

  function Pad2(v: int): (s: string)
    requires 0 <= v < 100
    ensures |s| == 2 && AllDigits(s)
  {
    [DigitChar(v / 10), DigitChar(v % 10)]
  }

  function Pad4(v: int): (s: string)
    requires 0 <= v < 10000
    ensures |s| == 4 && AllDigits(s)
  {
    [DigitChar(v / 1000), DigitChar(v / 100 % 10), DigitChar(v / 10 % 10), DigitChar(v % 10)]
  }

  function Value2(s: string): (v: int)
    requires |s| == 2 && AllDigits(s)
    ensures 0 <= v < 100
  {
    10 * DigitValue(s[0]) + DigitValue(s[1])
  }

  function Value4(s: string): (v: int)
    requires |s| == 4 && AllDigits(s)
    ensures 0 <= v < 10000
  {
    1000 * DigitValue(s[0]) + 100 * DigitValue(s[1]) + 10 * DigitValue(s[2]) + DigitValue(s[3])
  }

  lemma Pad2Value2(v: int)
    requires 0 <= v < 100
    ensures Value2(Pad2(v)) == v
  {
  }

  lemma Value2Pad2(s: string)
    requires |s| == 2 && AllDigits(s)
    ensures Pad2(Value2(s)) == s
  {
    DigitRoundTrip(s[0]);
    DigitRoundTrip(s[1]);
  }

  lemma Pad4Value4(v: int)
    requires 0 <= v < 10000
    ensures Value4(Pad4(v)) == v
  {
    var q1, d := v / 10, v % 10;
    var q2, c := q1 / 10, q1 % 10;
    var a, b := q2 / 10, q2 % 10;
    assert v == 10 * q1 + d && q1 == 10 * q2 + c && q2 == 10 * a + b;
    assert v == 1000 * a + 100 * b + 10 * c + d;
    assert v / 1000 == a && v / 100 % 10 == b && v / 10 % 10 == c;
  }

  lemma Value4Pad4(s: string)
    requires |s| == 4 && AllDigits(s)
    ensures Pad4(Value4(s)) == s
  {
    var a, b, c, d := DigitValue(s[0]), DigitValue(s[1]), DigitValue(s[2]), DigitValue(s[3]);
    var v := Value4(s);
    assert v == 1000 * a + 100 * b + 10 * c + d;
    assert v / 10 == 100 * a + 10 * b + c && v % 10 == d;
    assert v / 100 == 10 * a + b;
    assert v / 1000 == a;
    assert v / 100 % 10 == b;
    assert v / 10 % 10 == c;
    DigitRoundTrip(s[0]);
    DigitRoundTrip(s[1]);
    DigitRoundTrip(s[2]);
    DigitRoundTrip(s[3]);
  }

  lemma DigitRoundTrip(c: char)
    requires IsDigit(c)
    ensures DigitChar(DigitValue(c)) == c
  {
  }

  /** Where the three pieces of `a + b + d` sit. */
  lemma Pieces(a: string, b: string, d: string)
    ensures var s := a + b + d;
            s[..|a|] == a && s[|a|..|a| + |b|] == b && s[|a| + |b|..] == d
  {
    var s := a + b + d;
    assert s[..|a|] == a;
    assert s[|a|..|a| + |b|] == b;
    assert s[|a| + |b|..] == d;
  }

  // ---------------------------------------------------------------------
  // strftime/strptime with '%Y%m%d-%H%M%S'

  /** Fifteen characters: digits everywhere but a dash at index 8. */
  predicate CompactShape(s: string) {
    |s| == 15 && s[8] == '-' && forall i :: 0 <= i < 15 && i != 8 ==> IsDigit(s[i])
  }

  /** `f"{c:%Y%m%d-%H%M%S}"`, one character per position. */
  function CompactText(c: DateTime): (s: string)
    requires ValidDateTime(c)
    ensures CompactShape(s)
  {
    var y, mo, d, h, mi, se := c.year, c.month, c.day, c.hour, c.minute, c.second;
    [DigitChar(y / 1000), DigitChar(y / 100 % 10), DigitChar(y / 10 % 10), DigitChar(y % 10),
     DigitChar(mo / 10), DigitChar(mo % 10), DigitChar(d / 10), DigitChar(d % 10),
     '-',
     DigitChar(h / 10), DigitChar(h % 10), DigitChar(mi / 10), DigitChar(mi % 10), DigitChar(se / 10), DigitChar(se % 10)]
  }

  /** The two digits at `i` and `i + 1`, read as a number. */
  function DigitsAt2(s: string, i: nat): (v: nat)
    requires i + 2 <= |s| && IsDigit(s[i]) && IsDigit(s[i + 1])
    ensures v < 100
  {
    10 * DigitValue(s[i]) + DigitValue(s[i + 1])
  }

  /** The four digits from `i` on, read as a number. */
  function DigitsAt4(s: string, i: nat): (v: nat)
    requires i + 4 <= |s| && IsDigit(s[i]) && IsDigit(s[i + 1]) && IsDigit(s[i + 2]) && IsDigit(s[i + 3])
    ensures v < 10000
  {
    100 * DigitsAt2(s, i) + DigitsAt2(s, i + 2)
  }

  /** The fields written in `s` with '%Y%m%d-%H%M%S' (zero-padded form only). */
  function CompactFields(s: string): DateTime
    requires CompactShape(s)
  {
    DateTime(DigitsAt4(s, 0), DigitsAt2(s, 4), DigitsAt2(s, 6), DigitsAt2(s, 9), DigitsAt2(s, 11), DigitsAt2(s, 13))
  }

  /** `f"{t:%Y%m%d-%H%M%S}"`: fifteen characters, digits with a dash at index 8. */
  function FormatCompact(t: Instant): (s: string)
    ensures CompactShape(s)
  {
    CompactText(FromInstant(t))
  }

  /**
   * `datetime.strptime(s, '%Y%m%d-%H%M%S')`, `None` where it raises
   * `ValueError`: the shape is wrong or the fields are not a real datetime.
   */
  function ParseCompact(s: string): (r: Option<Instant>)
    ensures r.Some? ==> CompactShape(s)
  {
    if CompactShape(s) && ValidDateTime(CompactFields(s)) then Some(ToInstant(CompactFields(s)))
    else None
  }

  /** A number below 10000 is its four decimal digits. */
  lemma FourDigits(v: int)
    requires 0 <= v < 10000
    ensures 100 * (10 * (v / 1000) + v / 100 % 10) + (10 * (v / 10 % 10) + v % 10) == v
  {
    var q1, d := v / 10, v % 10;
    var q2, c := q1 / 10, q1 % 10;
    var a, b := q2 / 10, q2 % 10;
    assert v == 10 * q1 + d && q1 == 10 * q2 + c && q2 == 10 * a + b;
    assert v / 1000 == a && v / 100 % 10 == b && v / 10 % 10 == c;
  }

  /** Four decimal digits make a number whose digits they are. */
  lemma DigitsOfFour(a: int, b: int, c: int, d: int)
    requires 0 <= a < 10 && 0 <= b < 10 && 0 <= c < 10 && 0 <= d < 10
    ensures var v := 100 * (10 * a + b) + (10 * c + d);
            v / 1000 == a && v / 100 % 10 == b && v / 10 % 10 == c && v % 10 == d
  {
    var v := 100 * (10 * a + b) + (10 * c + d);
    assert v == 10 * (100 * a + 10 * b + c) + d;
    assert v / 10 == 100 * a + 10 * b + c;
    assert v / 100 == 10 * a + b;
    assert v / 1000 == a;
  }

  /** The text written for valid fields reads back as those fields. */
  lemma CompactFieldsOfText(c: DateTime)
    requires ValidDateTime(c)
    ensures CompactFields(CompactText(c)) == c
  {
    FourDigits(c.year);
  }

  /** Digits read as valid fields are written back character for character. */
  lemma CompactTextOfFields(s: string)
    requires CompactShape(s) && ValidDateTime(CompactFields(s))
    ensures CompactText(CompactFields(s)) == s
  {
    var t := CompactText(CompactFields(s));
    FourDigitsBack(s, 0);
    TwoDigitsBack(s, 4);
    TwoDigitsBack(s, 6);
    TwoDigitsBack(s, 9);
    TwoDigitsBack(s, 11);
    TwoDigitsBack(s, 13);
    assert forall i :: 0 <= i < 15 ==> t[i] == s[i];
  }

  lemma TwoDigitsBack(s: string, i: nat)
    requires i + 2 <= |s| && IsDigit(s[i]) && IsDigit(s[i + 1])
    ensures DigitChar(DigitsAt2(s, i) / 10) == s[i] && DigitChar(DigitsAt2(s, i) % 10) == s[i + 1]
  {
    DigitRoundTrip(s[i]);
    DigitRoundTrip(s[i + 1]);
  }

  lemma FourDigitsBack(s: string, i: nat)
    requires i + 4 <= |s| && IsDigit(s[i]) && IsDigit(s[i + 1]) && IsDigit(s[i + 2]) && IsDigit(s[i + 3])
    ensures var v := DigitsAt4(s, i);
            && DigitChar(v / 1000) == s[i] && DigitChar(v / 100 % 10) == s[i + 1]
            && DigitChar(v / 10 % 10) == s[i + 2] && DigitChar(v % 10) == s[i + 3]
  {
    DigitsOfFour(DigitValue(s[i]), DigitValue(s[i + 1]), DigitValue(s[i + 2]), DigitValue(s[i + 3]));
    DigitRoundTrip(s[i]);
    DigitRoundTrip(s[i + 1]);
    DigitRoundTrip(s[i + 2]);
    DigitRoundTrip(s[i + 3]);
  }

  /** What `strftime` writes, `strptime` reads back as the same instant. */
  lemma ParseFormatCompact(t: Instant)
    ensures ParseCompact(FormatCompact(t)) == Some(t)
  {
    CompactFieldsOfText(FromInstant(t));
  }

  /** What `strptime` accepts, `strftime` writes back character for character. */
  lemma FormatParseCompact(s: string)
    requires ParseCompact(s).Some?
    ensures FormatCompact(ParseCompact(s).value) == s
  {
    FromToInstant(CompactFields(s));
    CompactTextOfFields(s);
  }

  // ---------------------------------------------------------------------
  // strptime with '%Y:%m:%d %H:%M:%S' and '%Y-%m-%d %H:%M:%S'

  /** The fields of a date written as `YYYY<sep>mm<sep>dd`, if it has that shape. */
  function SeparatedDate(d: string, sep: char): Option<(int, int, int)>
    requires |d| == 10
  {
    if d[4] == sep && d[7] == sep && AllDigits(d[..4]) && AllDigits(d[5..7]) && AllDigits(d[8..])
    then Some((Value4(d[..4]), Value2(d[5..7]), Value2(d[8..])))
    else None
  }

  /** The fields of a time written as `HH:MM:SS`, if it has that shape. */
  function SeparatedTime(h: string): Option<(int, int, int)>
    requires |h| == 8
  {
    if h[2] == ':' && h[5] == ':' && AllDigits(h[..2]) && AllDigits(h[3..5]) && AllDigits(h[6..])
    then Some((Value2(h[..2]), Value2(h[3..5]), Value2(h[6..])))
    else None
  }

  /**
   * `datetime.strptime(s, f)` where `f` is `'%Y<sep>%m<sep>%d %H:%M:%S'`.
   * `strptime` turns the space of the format into "one or more whitespace
   * characters", so any non-empty run of whitespace separates date and time.
   */
  function ParseSeparated(s: string, sep: char): (r: Option<Instant>)
    ensures r.Some? ==> |s| >= 19
  {
    if |s| < 19 then None
    else
      var date, gap, time := SeparatedDate(s[..10], sep), s[10..|s| - 8], SeparatedTime(s[|s| - 8..]);
      if date.Some? && time.Some? && |gap| > 0 && (forall i :: 0 <= i < |gap| ==> IsSpace(gap[i])) then
        var c := DateTime(date.value.0, date.value.1, date.value.2, time.value.0, time.value.1, time.value.2);
        if ValidDateTime(c) then Some(ToInstant(c)) else None
      else None
  }

  /** `YYYY<sep>mm<sep>dd`. */
  function SeparatedDateText(c: DateTime, sep: char): (s: string)
    requires ValidDateTime(c)
    ensures |s| == 10
  {
    Pad4(c.year) + [sep] + Pad2(c.month) + [sep] + Pad2(c.day)
  }

  /** `HH:MM:SS`. */
  function SeparatedTimeText(c: DateTime): (s: string)
    requires ValidDateTime(c)
    ensures |s| == 8
  {
    Pad2(c.hour) + ":" + Pad2(c.minute) + ":" + Pad2(c.second)
  }

  /** `f"{t:%Y<sep>%m<sep>%d %H:%M:%S}"`; with `:` the form `exiftags` prints. */
  function FormatSeparated(t: Instant, sep: char): string {
    var c := FromInstant(t);
    SeparatedDateText(c, sep) + " " + SeparatedTimeText(c)
  }

  lemma SeparatedDateOfText(c: DateTime, sep: char)
    requires ValidDateTime(c)
    ensures SeparatedDate(SeparatedDateText(c, sep), sep) == Some((c.year, c.month, c.day))
  {
    var d := SeparatedDateText(c, sep);
    assert d[4] == sep && d[7] == sep;
    assert d[..4] == Pad4(c.year);
    assert d[5..7] == Pad2(c.month);
    assert d[8..] == Pad2(c.day);
    Pad4Value4(c.year);
    Pad2Value2(c.month);
    Pad2Value2(c.day);
  }

  lemma SeparatedTimeOfText(c: DateTime)
    requires ValidDateTime(c)
    ensures SeparatedTime(SeparatedTimeText(c)) == Some((c.hour, c.minute, c.second))
  {
    var h := SeparatedTimeText(c);
    assert h[2] == ':' && h[5] == ':';
    assert h[..2] == Pad2(c.hour);
    assert h[3..5] == Pad2(c.minute);
    assert h[6..] == Pad2(c.second);
    Pad2Value2(c.hour);
    Pad2Value2(c.minute);
    Pad2Value2(c.second);
  }

  /** What `strftime` writes with a separated format, `strptime` with that format reads back. */
  lemma ParseFormatSeparated(t: Instant, sep: char)
    ensures ParseSeparated(FormatSeparated(t, sep), sep) == Some(t)
  {
    var c := FromInstant(t);
    var d, h := SeparatedDateText(c, sep), SeparatedTimeText(c);
    var s := FormatSeparated(t, sep);
    Pieces(d, " ", h);
    assert s[..10] == d && s[10..|s| - 8] == " " && s[|s| - 8..] == h;
    SeparatedDateOfText(c, sep);
    SeparatedTimeOfText(c);
    FromToInstant(c);
  }
}
