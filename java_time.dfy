/** The parts of `java.time` the renderer uses, written out: the proleptic
    Gregorian calendar (leap years, month lengths, the ISO 8601 day of the
    week with Monday = 1 ... Sunday = 7), date and date-time ordering,
    `plusMonths`, `Month.plus`, the English upper-case names that `toString`
    returns, and the `dd`, `MM`, `yyyy`, `HH`, `mm` formatter fields. */
module JavaTime {
  import opened JavaText

  // The range of years `LocalDate` accepts.
  const MinYear: int := -999_999_999
  const MaxYear: int := 999_999_999

  /** Every fourth year, except centuries not divisible by 400. */
  predicate IsLeapYear(y: int) {
    y % 4 == 0 && (y % 100 != 0 || y % 400 == 0)
  }

  /** `LocalDate.lengthOfMonth()` */
  function LengthOfMonth(y: int, m: int): (n: int)
    requires 1 <= m <= 12
    ensures 28 <= n <= 31
    ensures n == 29 <==> m == 2 && IsLeapYear(y)
  {
    if m == 2 then (if IsLeapYear(y) then 29 else 28)
    else if m == 4 || m == 6 || m == 9 || m == 11 then 30
    else 31
  }

  datatype Date = Date(year: int, month: int, day: int)

  predicate ValidDate(d: Date) {
    MinYear <= d.year <= MaxYear && 1 <= d.month <= 12 && 1 <= d.day <= LengthOfMonth(d.year, d.month)
  }

  type LocalDate = d: Date | ValidDate(d) witness Date(2025, 1, 1)

  datatype DateTime = DateTime(date: LocalDate, hour: int, minute: int, second: int, nano: int)

  predicate ValidDateTime(t: DateTime) {
    0 <= t.hour < 24 && 0 <= t.minute < 60 && 0 <= t.second < 60 && 0 <= t.nano < 1_000_000_000
  }

  type LocalDateTime = t: DateTime | ValidDateTime(t) witness DateTime(Date(2025, 1, 1), 0, 0, 0, 0)

  /** `LocalDateTime.toLocalDate()` */
  function ToLocalDate(t: LocalDateTime): LocalDate {
    t.date
  }

  // ---------------------------------------------------------------------
  // Ordering: `isBefore`, `isAfter`, `isEqual` and `compareTo`

  /** `a.isBefore(b)`: year, then month, then day. */
  predicate DateBefore(a: LocalDate, b: LocalDate) {
    a.year < b.year
    || (a.year == b.year && a.month < b.month)
    || (a.year == b.year && a.month == b.month && a.day < b.day)
  }

  /** `a.isBefore(b)` for date-times: the date, then the time of day down to
      the nanosecond. */
  predicate DateTimeBefore(a: LocalDateTime, b: LocalDateTime) {
    DateBefore(a.date, b.date)
    || (a.date == b.date &&
        (a.hour < b.hour
         || (a.hour == b.hour && a.minute < b.minute)
         || (a.hour == b.hour && a.minute == b.minute && a.second < b.second)
         || (a.hour == b.hour && a.minute == b.minute && a.second == b.second && a.nano < b.nano)))
  }

  /** `!a.isAfter(b)`, the order `Comparator.comparing` sorts by. */
  predicate DateTimeNotAfter(a: LocalDateTime, b: LocalDateTime) {
    !DateTimeBefore(b, a)
  }

  /** `isBefore` on date-times is a strict total order: exactly one of
      before, equal, after holds. */
  lemma DateTimeBeforeIsStrictTotalOrder(a: LocalDateTime, b: LocalDateTime, c: LocalDateTime)
    ensures !DateTimeBefore(a, a)
    ensures DateTimeBefore(a, b) ==> !DateTimeBefore(b, a)
    ensures DateTimeBefore(a, b) && DateTimeBefore(b, c) ==> DateTimeBefore(a, c)
    ensures a != b ==> DateTimeBefore(a, b) || DateTimeBefore(b, a)
  {
  }

  // ---------------------------------------------------------------------
  // Day counting and the day of the week

  /** Days from 1 January of year 0 to 1 January of year `y` in the
      proleptic Gregorian calendar (negative for years before 0). */
  function DaysBeforeYear(y: int): int {
    365 * y + (y + 3) / 4 - (y + 99) / 100 + (y + 399) / 400
  }

  /** Days from 1 January to the first of month `m` of year `y`. */
  function DaysBeforeMonth(y: int, m: int): int
    requires 1 <= m <= 12
  {
    if m == 1 then 0 else DaysBeforeMonth(y, m - 1) + LengthOfMonth(y, m - 1)
  }

  /** `LocalDate.toEpochDay()`: days since 1970-01-01. */
  function EpochDay(d: LocalDate): int {
    DaysBeforeYear(d.year) + DaysBeforeMonth(d.year, d.month) + d.day - 1 - 719528
  }

  /** `getDayOfWeek().getValue()`: ISO 8601, Monday = 1 ... Sunday = 7;
      1970-01-01 was a Thursday. */
  function DayOfWeek(d: LocalDate): (w: int)
    ensures 1 <= w <= 7
  {
    (EpochDay(d) + 3) % 7 + 1
  }

  /** `plusDays(1)` */
  function NextDay(d: LocalDate): LocalDate
    requires d != Date(MaxYear, 12, 31)
  {
    if d.day < LengthOfMonth(d.year, d.month) then Date(d.year, d.month, d.day + 1)
    else if d.month < 12 then Date(d.year, d.month + 1, 1)
    else Date(d.year + 1, 1, 1)
  }

  lemma DaysBeforeYearStep(y: int)
    ensures DaysBeforeYear(y + 1) == DaysBeforeYear(y) + (if IsLeapYear(y) then 366 else 365)
  {
    DivStep4(y);
    DivStep100(y);
    DivStep400(y);
    CenturiesNest(y);
  }

  /** A multiple of 400 is one of 100, and a multiple of 100 one of 4. */
  lemma CenturiesNest(y: int)
    ensures y % 400 == 0 ==> y % 100 == 0
    ensures y % 100 == 0 ==> y % 4 == 0
  {
    if y % 400 == 0 {
      var q := y / 400;
      assert y == 100 * (4 * q);
    }
    if y % 100 == 0 {
      var q := y / 100;
      assert y == 4 * (25 * q);
    }
  }

  lemma DivStep4(y: int)
    ensures (y + 4) / 4 == (y + 3) / 4 + (if y % 4 == 0 then 1 else 0)
  {
    var q, r := y / 4, y % 4;
    assert y + 4 == 4 * (q + 1) + r;
    assert r == 0 ==> y + 3 == 4 * q + 3;
    assert r > 0 ==> y + 3 == 4 * (q + 1) + (r - 1);
  }

  lemma DivStep100(y: int)
    ensures (y + 100) / 100 == (y + 99) / 100 + (if y % 100 == 0 then 1 else 0)
  {
    var q, r := y / 100, y % 100;
    assert y + 100 == 100 * (q + 1) + r;
    assert r == 0 ==> y + 99 == 100 * q + 99;
    assert r > 0 ==> y + 99 == 100 * (q + 1) + (r - 1);
  }

  lemma DivStep400(y: int)
    ensures (y + 400) / 400 == (y + 399) / 400 + (if y % 400 == 0 then 1 else 0)
  {
    var q, r := y / 400, y % 400;
    assert y + 400 == 400 * (q + 1) + r;
    assert r == 0 ==> y + 399 == 400 * q + 399;
    assert r > 0 ==> y + 399 == 400 * (q + 1) + (r - 1);
  }

  lemma DaysInYear(y: int)
    ensures DaysBeforeMonth(y, 12) + 31 == (if IsLeapYear(y) then 366 else 365)
  {
    var f := if IsLeapYear(y) then 29 else 28;
    assert DaysBeforeMonth(y, 2) == 31;
    assert DaysBeforeMonth(y, 3) == 31 + f;
    assert DaysBeforeMonth(y, 4) == 62 + f;
    assert DaysBeforeMonth(y, 5) == 92 + f;
    assert DaysBeforeMonth(y, 6) == 123 + f;
    assert DaysBeforeMonth(y, 7) == 153 + f;
    assert DaysBeforeMonth(y, 8) == 184 + f;
    assert DaysBeforeMonth(y, 9) == 215 + f;
    assert DaysBeforeMonth(y, 10) == 245 + f;
    assert DaysBeforeMonth(y, 11) == 276 + f;
  }

  /** The day count of the next day is one more, across month and year
      ends alike. */
  lemma NextDayIsOneLater(d: LocalDate)
    requires d != Date(MaxYear, 12, 31)
    ensures EpochDay(NextDay(d)) == EpochDay(d) + 1
  {
    if d.day == LengthOfMonth(d.year, d.month) && d.month == 12 {
      DaysBeforeYearStep(d.year);
      DaysInYear(d.year);
    }
  }

  /** Weekdays follow each other Monday ... Sunday, Monday ... without gaps:
      with the anchor below this determines `DayOfWeek` completely. */
  lemma WeekdayAdvances(d: LocalDate)
    requires d != Date(MaxYear, 12, 31)
    ensures DayOfWeek(NextDay(d)) == DayOfWeek(d) % 7 + 1
  {
    NextDayIsOneLater(d);
    SevenStep(EpochDay(d) + 3);
  }

  lemma SevenStep(x: int)
    ensures (x + 1) % 7 == if x % 7 == 6 then 0 else x % 7 + 1
  {
    var q, r := x / 7, x % 7;
    assert x == 7 * q + r;
    if r == 6 {
      assert x + 1 == 7 * (q + 1);
    } else {
      assert x + 1 == 7 * q + (r + 1);
    }
  }

  /** 1970-01-01 is day 0 and a Thursday; 2025-01-01 is a Wednesday. */
  lemma WeekdayAnchors()
    ensures EpochDay(Date(1970, 1, 1)) == 0 && DayOfWeek(Date(1970, 1, 1)) == 4
    ensures DayOfWeek(Date(2025, 1, 1)) == 3
    ensures DayOfWeek(Date(2025, 3, 1)) == 6
  {
    assert DaysBeforeMonth(2025, 3) == 59;
  }

  // ---------------------------------------------------------------------
  // Month arithmetic

  /** `withDayOfMonth(1)` */
  function FirstOfMonth(d: LocalDate): LocalDate {
    Date(d.year, d.month, 1)
  }

  /** `date.withDayOfMonth(day)` */
  function WithDayOfMonth(d: LocalDate, day: int): (r: LocalDate)
    requires 1 <= day <= LengthOfMonth(d.year, d.month)
    ensures r.year == d.year && r.month == d.month && r.day == day
  {
    Date(d.year, d.month, day)
  }

  /** `plusMonths(n)` stays within the year range `LocalDate` accepts;
      outside it java.time throws. */
  predicate PlusMonthsInRange(d: LocalDate, n: int) {
    MinYear <= (d.year * 12 + (d.month - 1) + n) / 12 <= MaxYear
  }

  /** `plusMonths(n)`: the month `n` months later, the day clamped to that
      month's length. */
  function PlusMonths(d: LocalDate, n: int): (r: LocalDate)
    requires PlusMonthsInRange(d, n)
    ensures r.year * 12 + r.month == d.year * 12 + d.month + n
    ensures r.day == if d.day <= LengthOfMonth(r.year, r.month) then d.day else LengthOfMonth(r.year, r.month)
  {
    var total := d.year * 12 + (d.month - 1) + n;
    var y := total / 12;
    var m := total % 12 + 1;
    var len := LengthOfMonth(y, m);
    Date(y, m, if d.day <= len then d.day else len)
  }

  /** `Month.plus(n)` for `n >= 0`: cyclic, December is followed by January. */
  function MonthPlus(m: int, n: nat): (r: int)
    requires 1 <= m <= 12
    ensures 1 <= r <= 12
  {
    (m - 1 + n % 12 + 12) % 12 + 1
  }

  /** The cyclic month label agrees with the month `plusMonths` reaches. */
  lemma MonthPlusAgrees(d: LocalDate, n: nat)
    requires PlusMonthsInRange(d, n)
    ensures MonthPlus(d.month, n) == PlusMonths(d, n).month
  {
    TwelveShift(d.year, d.month - 1, n);
  }

  lemma TwelveShift(y: int, a: int, n: nat)
    ensures (a + n % 12 + 12) % 12 == (y * 12 + a + n) % 12
  {
    var q, r := n / 12, n % 12;
    assert n == 12 * q + r;
    var b := a + r;
    assert y * 12 + a + n == 12 * (y + q) + b;
    assert a + n % 12 + 12 == 12 * 1 + b;
    MultipleOfTwelve(y + q, b);
    MultipleOfTwelve(1, b);
  }

  lemma MultipleOfTwelve(k: int, b: int)
    ensures (12 * k + b) % 12 == b % 12
  {
    var q, r := b / 12, b % 12;
    assert 12 * k + b == 12 * (k + q) + r;
  }

  // ---------------------------------------------------------------------
  // Names: `Month.toString()` and `DayOfWeek.toString()`

  const MonthNames: seq<string> := ["JANUARY", "FEBRUARY", "MARCH", "APRIL", "MAY", "JUNE", "JULY",
                                    "AUGUST", "SEPTEMBER", "OCTOBER", "NOVEMBER", "DECEMBER"]
  const DayNames: seq<string> := ["MONDAY", "TUESDAY", "WEDNESDAY", "THURSDAY", "FRIDAY", "SATURDAY", "SUNDAY"]

  function MonthName(m: int): (s: string)
    requires 1 <= m <= 12
    ensures 3 <= |s| <= 9
  {
    MonthNames[m - 1]
  }

  function DayName(w: int): (s: string)
    requires 1 <= w <= 7
    ensures 6 <= |s| <= 9
  {
    DayNames[w - 1]
  }

  // ---------------------------------------------------------------------
  // DateTimeFormatter fields

  function Zeros(n: nat): (s: string)
    ensures |s| == n && AllDigits(s)
    ensures forall i :: 0 <= i < n ==> s[i] == '0'
  {
    if n == 0 then "" else Zeros(n - 1) + "0"
  }

  /** `n` as decimal digits, left-padded with zeros to at least `width`. */
  function ZeroPadded(n: nat, width: nat): (s: string)
    ensures AllDigits(s)
    ensures |s| == if |NatToString(n)| < width then width else |NatToString(n)|
  {
    var digits := NatToString(n);
    if |digits| < width then Zeros(width - |digits|) + digits else digits
  }

  lemma {:induction false} ParseNatLeadingZeros(k: nat, s: string)
    requires AllDigits(s)
    ensures AllDigits(Zeros(k) + s) && ParseNat(Zeros(k) + s) == ParseNat(s)
    decreases |s|
  {
    var z := Zeros(k) + s;
    assert AllDigits(z) by {
      forall i | 0 <= i < |z| ensures IsDigit(z[i]) {
        if i >= k { assert z[i] == s[i - k]; }
      }
    }
    if s == [] {
      assert z == Zeros(k);
      ParseNatZeros(k);
    } else {
      assert z[..|z| - 1] == Zeros(k) + s[..|s| - 1];
      ParseNatLeadingZeros(k, s[..|s| - 1]);
    }
  }

  lemma {:induction false} ParseNatZeros(k: nat)
    ensures ParseNat(Zeros(k)) == 0
    decreases k
  {
    if k > 0 {
      assert Zeros(k)[..k - 1] == Zeros(k - 1);
      ParseNatZeros(k - 1);
    }
  }

  /** Leading zeros do not change the value read back. */
  lemma ParseZeroPadded(n: nat, width: nat)
    ensures ParseNat(ZeroPadded(n, width)) == n
  {
    ParseNatToString(n);
    var digits := NatToString(n);
    if |digits| < width {
      ParseNatLeadingZeros(width - |digits|, digits);
    }
  }

  /** The `dd`, `MM`, `HH` and `mm` fields: two digits, zero padded. */
  function TwoDigits(n: nat): (s: string)
    ensures AllDigits(s) && ParseNat(s) == n
    ensures n < 100 ==> |s| == 2
  {
    ParseZeroPadded(n, 2);
    ZeroPadded(n, 2)
  }

  /** `ChronoField.YEAR_OF_ERA`: years 1, 2, ... of the current era, and
      1 - year before it (year 0 is 1 BCE). */
  function YearOfEra(y: int): (v: nat)
    ensures v >= 1
  {
    if y >= 1 then y else 1 - y
  }

  /** The `yyyy` field: the year of era with at least four digits, and a
      leading `+` once it needs more than four. */
  function FormatYear(y: int): (s: string)
    ensures |s| >= 4
    ensures YearOfEra(y) <= 9999 ==> |s| == 4 && AllDigits(s) && ParseNat(s) == YearOfEra(y)
    ensures YearOfEra(y) > 9999 ==> s[0] == '+' && AllDigits(s[1..]) && ParseNat(s[1..]) == YearOfEra(y)
  {
    var v := YearOfEra(y);
    ParseZeroPadded(v, 4);
    ParseNatToString(v);
    if v > 9999 then "+" + NatToString(v) else ZeroPadded(v, 4)
  }

  /** The pattern `dd.MM.yyyy` */
  function FormatDate(d: LocalDate): (s: string)
    ensures |s| >= 10 && s[2] == '.' && s[5] == '.'
    ensures 1 <= d.year <= 9999 ==> |s| == 10
    ensures AllDigits(s[..2]) && AllDigits(s[3..5])
    ensures ParseNat(s[..2]) == d.day && ParseNat(s[3..5]) == d.month
    ensures 1 <= d.year <= 9999 ==> AllDigits(s[6..]) && ParseNat(s[6..]) == d.year
  {
    var dd := TwoDigits(d.day);
    var mm := TwoDigits(d.month);
    var r := dd + "." + mm + "." + FormatYear(d.year);
    assert r[..2] == dd && r[3..5] == mm && r[6..] == FormatYear(d.year);
    r
  }

  /** The pattern `HH:mm` */
  function FormatTime(t: LocalDateTime): (s: string)
    ensures |s| == 5 && s[2] == ':'
    ensures AllDigits(s[..2]) && ParseNat(s[..2]) == t.hour
    ensures AllDigits(s[3..]) && ParseNat(s[3..]) == t.minute
  {
    var hh := TwoDigits(t.hour);
    var mm := TwoDigits(t.minute);
    var r := hh + ":" + mm;
    assert r[..2] == hh && r[3..] == mm;
    r
  }
}
