/** Civil date-times as the calendar code uses them. A timestamp is a
    (year, month, day, hour, minute, second) tuple with the month 0-indexed,
    as `Date.prototype.getMonth` reports it; timestamps compare
    lexicographically, which is chronological order for valid ones. The
    Gregorian leap rule gives month lengths, and a day count from
    1970-01-01 (a Thursday) gives weekdays. */
module CivilTime {
  import opened Wrappers
  import opened JsString

  datatype DateTime = DateTime(year: int, month: int, day: int, hour: int, minute: int, second: int)

  predicate IsLeapYear(y: int) {
    (y % 4 == 0 && y % 100 != 0) || y % 400 == 0
  }

  /** Length of month `m` (0 = January) of year `y`. */
  function DaysInMonth(y: int, m: int): (n: int)
    requires 0 <= m < 12
    ensures 28 <= n <= 31
    ensures m == 1 ==> (n == 29 <==> IsLeapYear(y))
  {
    if m == 1 then (if IsLeapYear(y) then 29 else 28)
    else if m == 3 || m == 5 || m == 8 || m == 10 then 30
    else 31
  }

  function DaysInYear(y: int): int {
    if IsLeapYear(y) then 366 else 365
  }

  predicate IsValidDate(y: int, m: int, d: int) {
    0 <= m < 12 && 1 <= d <= DaysInMonth(y, m)
  }

  predicate IsValid(t: DateTime) {
    IsValidDate(t.year, t.month, t.day)
    && 0 <= t.hour < 24 && 0 <= t.minute < 60 && 0 <= t.second < 60
  }

  /** `a <= b`: lexicographic on (year, month, day, hour, minute, second). */
  predicate Le(a: DateTime, b: DateTime) {
    a.year < b.year || (a.year == b.year &&
    (a.month < b.month || (a.month == b.month &&
    (a.day < b.day || (a.day == b.day &&
    (a.hour < b.hour || (a.hour == b.hour &&
    (a.minute < b.minute || (a.minute == b.minute && a.second <= b.second)))))))))
  }

  /** `Le` is a total order: reflexive, total, transitive and antisymmetric. */
  lemma LeTotalOrder(a: DateTime, b: DateTime, c: DateTime)
    ensures Le(a, a)
    ensures Le(a, b) || Le(b, a)
    ensures Le(a, b) && Le(b, c) ==> Le(a, c)
    ensures Le(a, b) && Le(b, a) ==> a == b
  {
  }

  // ---------------------------------------------------------------------------
  // What `new Date(year, month, ...)` does with its first two arguments

  /** A year argument in 0..99 means 1900..1999. */
  function ConstructorYear(year: int): int {
    if 0 <= year <= 99 then 1900 + year else year
  }

  /** The (year, month) that `new Date(year, month, ...)` lands in: a month
      outside 0..11 rolls over into earlier or later years. */
  function NormalizeMonth(year: int, month: int): (r: (int, int))
    ensures 0 <= r.1 < 12
    ensures 12 * r.0 + r.1 == 12 * ConstructorYear(year) + month
  {
    (ConstructorYear(year) + month / 12, month % 12)
  }

  /** `new Date(year, month, 1)`: the first instant of the month. */
  function MonthStart(year: int, month: int): (t: DateTime)
    ensures IsValid(t) && t.day == 1 && t.hour == 0 && t.minute == 0 && t.second == 0
    ensures (t.year, t.month) == NormalizeMonth(year, month)
  {
    var (y, m) := NormalizeMonth(year, month);
    DateTime(y, m, 1, 0, 0, 0)
  }

  /** `new Date(year, month + 1, 0, 23, 59, 59)`: day 0 of the next month is the
      last day of this one. */
  function MonthEnd(year: int, month: int): (t: DateTime)
    ensures IsValid(t) && t.hour == 23 && t.minute == 59 && t.second == 59
    ensures (t.year, t.month) == NormalizeMonth(year, month)
    ensures t.day == DaysInMonth(t.year, t.month)
  {
    var (y, m) := NormalizeMonth(year, month);
    DateTime(y, m, DaysInMonth(y, m), 23, 59, 59)
  }

  /** Both ends included, as `Query.between` does. */
  predicate InMonthWindow(year: int, month: int, t: DateTime) {
    Le(MonthStart(year, month), t) && Le(t, MonthEnd(year, month))
  }

  /** A valid timestamp falls in the window of (year, month) exactly when it
      lies in that calendar month. */
  lemma InMonthWindowIff(year: int, month: int, t: DateTime)
    requires IsValid(t)
    ensures InMonthWindow(year, month, t) <==> (t.year, t.month) == NormalizeMonth(year, month)
  {
    var lo, hi := MonthStart(year, month), MonthEnd(year, month);
    if (t.year, t.month) == NormalizeMonth(year, month) {
      assert Le(lo, t) && Le(t, hi);
    }
  }

  /** The windows of two different months are disjoint. */
  lemma MonthWindowsDisjoint(y1: int, m1: int, y2: int, m2: int, t: DateTime)
    requires IsValid(t)
    requires NormalizeMonth(y1, m1) != NormalizeMonth(y2, m2)
    ensures !(InMonthWindow(y1, m1, t) && InMonthWindow(y2, m2, t))
  {
    InMonthWindowIff(y1, m1, t);
    InMonthWindowIff(y2, m2, t);
  }

  // ---------------------------------------------------------------------------
  // Day numbers and weekdays

  /** Days from 1970-01-01 to the first of January of `y`. */
  function DaysBeforeYear(y: int): int
    decreases if y >= 1970 then y - 1970 else 1970 - y
  {
    if y == 1970 then 0
    else if y > 1970 then DaysBeforeYear(y - 1) + DaysInYear(y - 1)
    else DaysBeforeYear(y + 1) - DaysInYear(y)
  }

  /** Days of year `y` before month `m`. */
  function DaysBeforeMonth(y: int, m: int): int
    requires 0 <= m <= 12
  {
    if m == 0 then 0 else DaysBeforeMonth(y, m - 1) + DaysInMonth(y, m - 1)
  }

  /** Days from 1970-01-01 to the given date. */
  function DayNumber(y: int, m: int, d: int): int
    requires 0 <= m < 12
  {
    DaysBeforeYear(y) + DaysBeforeMonth(y, m) + (d - 1)
  }

  /** `getDay()`: 0 = Sunday ... 6 = Saturday. */
  function Weekday(y: int, m: int, d: int): (w: int)
    requires 0 <= m < 12
    ensures 0 <= w < 7
  {
    (DayNumber(y, m, d) + 4) % 7
  }

  /** The calendar day after a valid date. */
  function NextDay(y: int, m: int, d: int): (r: (int, int, int))
    requires IsValidDate(y, m, d)
    ensures IsValidDate(r.0, r.1, r.2)
  {
    if d < DaysInMonth(y, m) then (y, m, d + 1)
    else if m < 11 then (y, m + 1, 1)
    else (y + 1, 0, 1)
  }

  lemma DaysBeforeMonthYear(y: int)
    ensures DaysBeforeMonth(y, 12) == DaysInYear(y)
  {
    assert DaysBeforeMonth(y, 1) == 31;
    assert DaysBeforeMonth(y, 2) == 31 + DaysInMonth(y, 1);
    assert DaysBeforeMonth(y, 3) == DaysBeforeMonth(y, 2) + 31;
    assert DaysBeforeMonth(y, 4) == DaysBeforeMonth(y, 3) + 30;
    assert DaysBeforeMonth(y, 5) == DaysBeforeMonth(y, 4) + 31;
    assert DaysBeforeMonth(y, 6) == DaysBeforeMonth(y, 5) + 30;
    assert DaysBeforeMonth(y, 7) == DaysBeforeMonth(y, 6) + 31;
    assert DaysBeforeMonth(y, 8) == DaysBeforeMonth(y, 7) + 31;
    assert DaysBeforeMonth(y, 9) == DaysBeforeMonth(y, 8) + 30;
    assert DaysBeforeMonth(y, 10) == DaysBeforeMonth(y, 9) + 31;
    assert DaysBeforeMonth(y, 11) == DaysBeforeMonth(y, 10) + 30;
  }

  lemma DaysBeforeNextYear(y: int)
    ensures DaysBeforeYear(y + 1) == DaysBeforeYear(y) + DaysInYear(y)
  {
  }

  /** Day numbers count consecutive days, across month and year ends. */
  lemma NextDayNumber(y: int, m: int, d: int)
    requires IsValidDate(y, m, d)
    ensures var (y', m', d') := NextDay(y, m, d); DayNumber(y', m', d') == DayNumber(y, m, d) + 1
  {
    if d == DaysInMonth(y, m) && m == 11 {
      DaysBeforeMonthYear(y);
      DaysBeforeNextYear(y);
    }
  }

  /** Adding whole weeks keeps the remainder modulo 7. */
  lemma {:induction false} ModAddWeeks(a: int, q: int)
    ensures (a + 7 * q) % 7 == a % 7
    decreases if q >= 0 then q else -q
  {
    if q > 0 {
      ModAddWeeks(a, q - 1);
      assert a + 7 * q == (a + 7 * (q - 1)) + 7;
    } else if q < 0 {
      ModAddWeeks(a, q + 1);
      assert a + 7 * q == (a + 7 * (q + 1)) - 7;
    }
  }

  lemma ModShift(x: int, k: int)
    ensures (x % 7 + k) % 7 == (x + k) % 7
  {
    var q := x / 7;
    assert x == x % 7 + 7 * q;
    ModAddWeeks(x % 7 + k, q);
  }

  /** The weekday advances by one, modulo 7, from each day to the next. */
  lemma NextDayWeekday(y: int, m: int, d: int)
    requires IsValidDate(y, m, d)
    ensures var (y', m', d') := NextDay(y, m, d); Weekday(y', m', d') == (Weekday(y, m, d) + 1) % 7
  {
    NextDayNumber(y, m, d);
    ModShift(DayNumber(y, m, d) + 4, 1);
  }

  // ---------------------------------------------------------------------------
  // Text forms: "YYYY-MM-DD", "HH:MM" and ISO 8601 timestamps

  predicate IsDecimal(s: string) {
    forall i :: 0 <= i < |s| ==> DigitValue(s[i], 10) >= 0
  }

  /** A non-empty run of decimal digits read as a number; anything else is rejected. */
  function ParseDigits(s: string): (r: Option<nat>)
    ensures r.Some? <==> s != [] && IsDecimal(s)
  {
    if s != [] && IsDecimal(s) then Some(DigitsValue(s, 10)) else None
  }

  /** `String(n).padStart(width, "0")`. */
  function ZeroPad(n: nat, width: nat): string {
    PadStart(NatToString(n), width, '0')
  }

  /** A leading zero adds nothing to a number's value. */
  lemma {:induction false} LeadingZeroValue(q: string)
    requires q != [] && q[0] == '0' && IsDecimal(q)
    ensures DigitsValue(q, 10) == DigitsValue(q[1..], 10)
  {
    if |q| > 1 {
      var init := q[..|q| - 1];
      assert init[1..] == q[1..][..|q| - 2];
      LeadingZeroValue(init);
    }
  }

  lemma {:induction false} LeadingZerosValue(q: string, k: nat)
    requires k <= |q| && IsDecimal(q)
    requires forall i :: 0 <= i < k ==> q[i] == '0'
    ensures DigitsValue(q, 10) == DigitsValue(q[k..], 10)
  {
    if k > 0 {
      LeadingZeroValue(q);
      assert q[1..][k - 1..] == q[k..];
      LeadingZerosValue(q[1..], k - 1);
    }
  }

  lemma PadStartValue(s: string, width: nat)
    requires IsDecimal(s)
    ensures IsDecimal(PadStart(s, width, '0'))
    ensures DigitsValue(PadStart(s, width, '0'), 10) == DigitsValue(s, 10)
  {
    var q := PadStart(s, width, '0');
    var k := |q| - |s|;
    assert q[k..] == s;
    assert IsDecimal(q);
    LeadingZerosValue(q, k);
  }

  /** Reading a zero-padded number back gives the number. */
  lemma ZeroPadRoundTrip(n: nat, width: nat)
    ensures ParseDigits(ZeroPad(n, width)) == Some(n)
  {
    NatToStringValue(n);
    PadStartValue(NatToString(n), width);
  }

  lemma NatToStringUnder100(n: nat)
    requires n < 100
    ensures |NatToString(n)| <= 2
  {
  }

  lemma NatToStringUnder10000(n: nat)
    requires n < 10000
    ensures |NatToString(n)| <= 4
  {
    if n >= 10 {
      if n / 10 >= 10 {
        NatToStringUnder100(n / 100);
        assert |NatToString(n / 10)| == |NatToString(n / 100)| + 1;
      }
    }
  }

  /** Parses the three numeric fields of "YYYY-MM-DD". */
  function DateFields(s: string): Option<(nat, nat, nat)>
    requires |s| == 10
  {
    match ParseDigits(s[..4])
    case None => None
    case Some(y) =>
      match ParseDigits(s[5..7])
      case None => None
      case Some(mo) =>
        match ParseDigits(s[8..])
        case None => None
        case Some(d) => Some((y, mo, d))
  }

  /** "YYYY-MM-DD" as a date input writes it; the month comes back 0-indexed. */
  function ParseDate(s: string): (r: Option<(int, int, int)>)
    ensures r.Some? ==> IsValidDate(r.value.0, r.value.1, r.value.2)
  {
    if |s| == 10 && s[4] == '-' && s[7] == '-' then
      match DateFields(s)
      case None => None
      case Some((y, mo, d)) =>
        if 1 <= mo <= 12 && 1 <= d <= DaysInMonth(y, mo - 1) then Some((y, mo - 1, d)) else None
    else None
  }

  /** "HH:MM" as a time input writes it. */
  function ParseTime(s: string): (r: Option<(int, int)>)
    ensures r.Some? ==> 0 <= r.value.0 < 24 && 0 <= r.value.1 < 60
  {
    if |s| == 5 && s[2] == ':' then
      match ParseDigits(s[..2])
      case None => None
      case Some(h) =>
        match ParseDigits(s[3..])
        case None => None
        case Some(mi) => if h < 24 && mi < 60 then Some((h, mi)) else None
    else None
  }

  /** `new Date(`${date}T${time}`)`: a local date-time, None for an Invalid Date. */
  function ParseDateTime(date: string, time: string): (r: Option<DateTime>)
    ensures r.Some? ==> IsValid(r.value) && r.value.second == 0
  {
    match ParseDate(date)
    case None => None
    case Some((y, m, d)) =>
      match ParseTime(time)
      case None => None
      case Some((h, mi)) => Some(DateTime(y, m, d, h, mi, 0))
  }

  /** Four-digit years, and the expanded six-digit form with a sign outside 0..9999. */
  function FormatYear(y: int): string {
    if y < 0 then "-" + ZeroPad(-y, 6) else if y > 9999 then "+" + ZeroPad(y, 6) else ZeroPad(y, 4)
  }

  /** The date part of `toISOString()`, with the month written 1-indexed. */
  function FormatDate(y: int, m: int, d: int): string
    requires IsValidDate(y, m, d)
  {
    FormatYear(y) + "-" + ZeroPad(m + 1, 2) + "-" + ZeroPad(d, 2)
  }

  /** "HH:MM", each part zero-padded to two digits. */
  function FormatTime(h: nat, mi: nat): string {
    ZeroPad(h, 2) + ":" + ZeroPad(mi, 2)
  }

  /** `toISOString()` of a timestamp with no milliseconds. */
  function FormatIso(t: DateTime): string
    requires IsValid(t)
  {
    FormatDate(t.year, t.month, t.day) + "T" + FormatClock(t.hour, t.minute, t.second) + ".000Z"
  }

  /** "HH:MM:SS". */
  function FormatClock(h: nat, mi: nat, sec: nat): string {
    FormatTime(h, mi) + ":" + ZeroPad(sec, 2)
  }

  lemma MidnightClock()
    ensures FormatClock(0, 0, 0) == "00:00:00"
  {
    assert NatToString(0) == "0";
    assert ZeroPad(0, 2) == "00";
  }

  lemma MidnightShape(y: int, m: int, d: int)
    requires IsValidDate(y, m, d)
    ensures FormatIso(DateTime(y, m, d, 0, 0, 0)) == FormatDate(y, m, d) + "T" + FormatClock(0, 0, 0) + ".000Z"
  {
  }

  lemma MidnightConcat(date: string)
    ensures date + "T" + "00:00:00" + ".000Z" == date + "T00:00:00.000Z"
  {
  }

  /** Midnight of a day is written with a zero clock. */
  lemma MidnightIso(y: int, m: int, d: int)
    requires IsValidDate(y, m, d)
    ensures FormatIso(DateTime(y, m, d, 0, 0, 0)) == FormatDate(y, m, d) + "T00:00:00.000Z"
  {
    MidnightShape(y, m, d);
    MidnightClock();
    MidnightConcat(FormatDate(y, m, d));
  }

  lemma ZeroPadTwoDigits(n: nat)
    requires n < 100
    ensures |ZeroPad(n, 2)| == 2 && ParseDigits(ZeroPad(n, 2)) == Some(n)
  {
    NatToStringUnder100(n);
    ZeroPadRoundTrip(n, 2);
  }

  lemma ZeroPadFourDigits(n: nat)
    requires n < 10000
    ensures |ZeroPad(n, 4)| == 4 && ParseDigits(ZeroPad(n, 4)) == Some(n)
  {
    NatToStringUnder10000(n);
    ZeroPadRoundTrip(n, 4);
  }

  lemma DateFieldsOf(ys: string, ms: string, ds: string, y: nat, mo: nat, d: nat)
    requires |ys| == 4 && |ms| == 2 && |ds| == 2
    requires ParseDigits(ys) == Some(y) && ParseDigits(ms) == Some(mo) && ParseDigits(ds) == Some(d)
    ensures var s := ys + "-" + ms + "-" + ds;
      |s| == 10 && s[4] == '-' && s[7] == '-' && DateFields(s) == Some((y, mo, d))
  {
    var s := ys + "-" + ms + "-" + ds;
    assert s[..4] == ys;
    assert s[5..7] == ms;
    assert s[8..] == ds;
  }

  /** A date the form writes reads back as the same date. */
  lemma DateRoundTrip(y: int, m: int, d: int)
    requires IsValidDate(y, m, d) && 0 <= y <= 9999
    ensures ParseDate(FormatDate(y, m, d)) == Some((y, m, d))
  {
    ZeroPadFourDigits(y);
    ZeroPadTwoDigits(m + 1);
    ZeroPadTwoDigits(d);
    DateFieldsOf(ZeroPad(y, 4), ZeroPad(m + 1, 2), ZeroPad(d, 2), y, m + 1, d);
  }

  /** A time the form writes reads back as the same time. */
  lemma TimeRoundTrip(h: nat, mi: nat)
    requires h < 24 && mi < 60
    ensures ParseTime(FormatTime(h, mi)) == Some((h, mi))
  {
    ZeroPadTwoDigits(h);
    ZeroPadTwoDigits(mi);
    TimeFieldsOf(ZeroPad(h, 2), ZeroPad(mi, 2), h, mi);
  }

  lemma TimeFieldsOf(hs: string, ms: string, h: nat, mi: nat)
    requires |hs| == 2 && |ms| == 2 && h < 24 && mi < 60
    requires ParseDigits(hs) == Some(h) && ParseDigits(ms) == Some(mi)
    ensures ParseTime(hs + ":" + ms) == Some((h, mi))
  {
    var s := hs + ":" + ms;
    assert |s| == 5 && s[2] == ':';
    assert s[..2] == hs;
    assert s[3..] == ms;
  }

  /** A whole-minute timestamp written as a date and a time reads back as
      itself. */
  lemma ParseDateTimeRoundTrip(t: DateTime)
    requires IsValid(t) && 0 <= t.year <= 9999 && t.second == 0
    ensures ParseDateTime(FormatDate(t.year, t.month, t.day), FormatTime(t.hour, t.minute)) == Some(t)
  {
    DateRoundTrip(t.year, t.month, t.day);
    TimeRoundTrip(t.hour, t.minute);
  }
}
