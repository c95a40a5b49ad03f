/** Timestamps as the tunnel table keeps them: `YYYY-MM-DD HH:MM:SS` in local time, compared
    as text, and read back by `parseDBTime` as if they were UTC. */
module DbTime {
  import opened ByteStrings

  /** Nanoseconds since the start of year 0 (Gregorian calendar, UTC). */
  type Instant = nat

  const SECOND := 1_000_000_000
  const DAY := 86400

  datatype Civil = Civil(year: nat, month: nat, day: nat, hour: nat, minute: nat, second: nat)

  // ----- The calendar -----

  predicate Leap(y: nat) { y % 4 == 0 && (y % 100 != 0 || y % 400 == 0) }

  function YearLength(y: nat): nat { if Leap(y) then 366 else 365 }

  function MonthLength(y: nat, m: nat): nat {
    if m == 2 then (if Leap(y) then 29 else 28)
    else if m == 4 || m == 6 || m == 9 || m == 11 then 30
    else 31
  }

  /** Days before January 1st of a year, and before the first of a month within its year. */
  function YearStart(y: nat): nat { if y == 0 then 0 else YearStart(y - 1) + YearLength(y - 1) }

  function MonthStart(y: nat, m: nat): nat
    requires m >= 1
  {
    if m == 1 then 0 else MonthStart(y, m - 1) + MonthLength(y, m - 1)
  }

  lemma {:induction false} YearsApart(a: nat, b: nat)
    requires a < b
    ensures YearStart(a) + YearLength(a) <= YearStart(b)
  {
    if a + 1 == b {
    } else {
      YearsApart(a, b - 1);
    }
  }

  lemma {:induction false} MonthsApart(y: nat, a: nat, b: nat)
    requires 1 <= a < b
    ensures MonthStart(y, a) + MonthLength(y, a) <= MonthStart(y, b)
  {
    if a + 1 == b {
    } else {
      MonthsApart(y, a, b - 1);
    }
  }

  lemma TwelveMonths(y: nat)
    ensures MonthStart(y, 12) + 31 == YearLength(y)
  {
    MonthStarts(y);
  }

  lemma LeapByDivision(z: nat)
    ensures (if Leap(z) then 1 else 0)
            == (if z % 4 == 0 then 1 else 0) - (if z % 100 == 0 then 1 else 0) + (if z % 400 == 0 then 1 else 0)
  {
    assert z % 400 == 0 ==> z % 100 == 0;
    assert z % 100 == 0 ==> z % 4 == 0;
  }

  lemma NextQuotient(y: nat, n: nat)
    requires y > 0 && n > 0
    ensures (y + n - 1) / n == (y + n - 2) / n + if (y - 1) % n == 0 then 1 else 0
  {
    var q, r := (y - 1) / n, (y - 1) % n;
    assert y - 1 == n * q + r;
    assert (y + n - 1) / n == q + 1 by {
      assert y + n - 1 == n * (q + 1) + r;
      DivisionIs(y + n - 1, n, q + 1, r);
    }
    if r == 0 {
      assert y + n - 2 == n * q + (n - 1);
      DivisionIs(y + n - 2, n, q, n - 1);
    } else {
      assert y + n - 2 == n * (q + 1) + (r - 1);
      DivisionIs(y + n - 2, n, q + 1, r - 1);
    }
  }

  lemma DivisionIs(x: int, n: int, q: int, r: int)
    requires n > 0 && x == n * q + r && 0 <= r < n
    ensures x / n == q
  {
    var p := x / n;
    assert x == n * p + x % n;
    assert n * (p - q) == r - x % n;
    SmallMultiple(p - q, n, r - x % n);
    assert n * (p - q) == 0;
    assert p - q >= 1 ==> n * (p - q) >= n;
    assert p - q <= -1 ==> n * (p - q) <= -n;
  }

  /** The Gregorian calendar: 365 days a year, and one more for every fourth year but not for every
      hundredth, except for every four hundredth. */
  lemma {:induction false} YearStartGregorian(y: nat)
    ensures YearStart(y) == 365 * y + (y + 3) / 4 - (y + 99) / 100 + (y + 399) / 400
  {
    if y == 0 {
    } else {
      YearStartGregorian(y - 1);
      GregorianStep(y);
    }
  }

  lemma GregorianStep(y: nat)
    requires y > 0
    ensures YearLength(y - 1)
            == 365 + ((y + 3) / 4 - (y + 2) / 4) - ((y + 99) / 100 - (y + 98) / 100) + ((y + 399) / 400 - (y + 398) / 400)
  {
    LeapByDivision(y - 1);
    NextQuotient(y, 4);
    NextQuotient(y, 100);
    NextQuotient(y, 400);
  }

  /** For example, the years 1970, 2000 and 2024 start on these days. */
  lemma SomeYears(a: nat, b: nat, c: nat)
    requires a == 1970 && b == 2000 && c == 2024
    ensures YearStart(a) == 719528 && YearStart(b) == 730485 && YearStart(c) == 739251
  {
    YearStartGregorian(a);
    YearStartGregorian(b);
    YearStartGregorian(c);
  }

  /** The days before each month in an ordinary year; from March on, one more in a leap year. */
  lemma MonthStarts(y: nat)
    ensures var leap := if Leap(y) then 1 else 0;
            && MonthStart(y, 1) == 0 && MonthStart(y, 2) == 31
            && MonthStart(y, 3) == 59 + leap && MonthStart(y, 4) == 90 + leap && MonthStart(y, 5) == 120 + leap
            && MonthStart(y, 6) == 151 + leap && MonthStart(y, 7) == 181 + leap && MonthStart(y, 8) == 212 + leap
            && MonthStart(y, 9) == 243 + leap && MonthStart(y, 10) == 273 + leap && MonthStart(y, 11) == 304 + leap
            && MonthStart(y, 12) == 334 + leap && YearLength(y) == 365 + leap
  {
    assert MonthStart(y, 4) == MonthStart(y, 3) + 31;
    assert MonthStart(y, 6) == MonthStart(y, 5) + 31 == MonthStart(y, 4) + 61;
    assert MonthStart(y, 8) == MonthStart(y, 7) + 31 == MonthStart(y, 6) + 61;
    assert MonthStart(y, 10) == MonthStart(y, 9) + 30 == MonthStart(y, 8) + 61;
    assert MonthStart(y, 12) == MonthStart(y, 11) + 30 == MonthStart(y, 10) + 61;
  }

  predicate Valid(c: Civil) {
    && 1 <= c.month <= 12 && 1 <= c.day <= MonthLength(c.year, c.month)
    && c.hour < 24 && c.minute < 60 && c.second < 60
  }

  function DayNumber(c: Civil): nat
    requires Valid(c)
  {
    YearStart(c.year) + MonthStart(c.year, c.month) + c.day - 1
  }

  function SecondsOf(c: Civil): nat
    requires Valid(c)
  {
    DayNumber(c) * DAY + c.hour * 3600 + c.minute * 60 + c.second
  }

  function FindYear(day: nat, y: nat): (r: (nat, nat))
    ensures r.1 < YearLength(r.0) && YearStart(r.0) + r.1 == YearStart(y) + day && r.0 >= y
  {
    if day < YearLength(y) then (y, day) else FindYear(day - YearLength(y), y + 1)
  }

  function FindMonth(y: nat, day: nat, m: nat): (r: (nat, nat))
    requires 1 <= m <= 12 && MonthStart(y, m) + day < YearLength(y)
    ensures m <= r.0 <= 12 && r.1 < MonthLength(y, r.0) && MonthStart(y, r.0) + r.1 == MonthStart(y, m) + day
    decreases 12 - m
  {
    TwelveMonths(y);
    if day < MonthLength(y, m) || m == 12 then (m, day) else FindMonth(y, day - MonthLength(y, m), m + 1)
  }

  /** The date and time of day of a number of seconds since the start of year 0. */
  function CivilOf(t: nat): (c: Civil)
    ensures Valid(c) && SecondsOf(c) == t
  {
    var (y, yday) := FindYear(t / DAY, 0);
    var (m, mday) := FindMonth(y, yday, 1);
    var s := t % DAY;
    Civil(y, m, mday + 1, s / 3600, s % 3600 / 60, s % 60)
  }

  predicate CivilBefore(a: Civil, b: Civil) {
    || a.year < b.year
    || (a.year == b.year && (a.month < b.month
    || (a.month == b.month && (a.day < b.day
    || (a.day == b.day && (a.hour < b.hour
    || (a.hour == b.hour && (a.minute < b.minute
    || (a.minute == b.minute && a.second < b.second)))))))))
  }

  lemma DaysInOrder(a: Civil, b: Civil)
    requires Valid(a) && Valid(b)
    ensures a.year < b.year ==> DayNumber(a) < DayNumber(b)
    ensures a.year == b.year && a.month < b.month ==> DayNumber(a) < DayNumber(b)
  {
    TwelveMonths(a.year);
    if a.month < 12 {
      MonthsApart(a.year, a.month, 12);
    }
    if a.year < b.year {
      YearsApart(a.year, b.year);
    }
    if a.month < b.month {
      MonthsApart(a.year, a.month, b.month);
    }
  }

  lemma SecondsInOrder(a: Civil, b: Civil)
    requires Valid(a) && Valid(b) && CivilBefore(a, b)
    ensures SecondsOf(a) < SecondsOf(b)
  {
    DaysInOrder(a, b);
    if DayNumber(a) < DayNumber(b) {
      assert DayNumber(a) * DAY + DAY <= DayNumber(b) * DAY;
    }
  }

  /** A date and time is the one of its own second. */
  lemma CivilOfInverts(c: Civil)
    requires Valid(c)
    ensures CivilOf(SecondsOf(c)) == c
  {
    var d := CivilOf(SecondsOf(c));
    assert SecondsOf(d) == SecondsOf(c);
    if CivilBefore(c, d) {
      SecondsInOrder(c, d);
    }
    if CivilBefore(d, c) {
      SecondsInOrder(d, c);
    }
  }

  // ----- Text -----

  /** Decimal digits, at least `width` of them. */
  function Digits(n: nat, width: nat): Bytes
    decreases n, width
  {
    if n == 0 && width == 0 then []
    else Digits(n / 10, if width == 0 then 0 else width - 1) + [48 + n % 10]
  }

  function Power10(w: nat): nat { if w == 0 then 1 else 10 * Power10(w - 1) }

  /** Reads decimal digits; `None` if any byte is not one. */
  function Number(s: Bytes): Option<nat> {
    if s == [] then Some(0)
    else
      var d := s[|s| - 1];
      match Number(s[..|s| - 1])
      case Some(n) => if 48 <= d <= 57 then Some(10 * n + d - 48) else None
      case None => None
  }

  lemma {:induction false} DigitsNumber(n: nat, w: nat)
    requires n < Power10(w)
    ensures |Digits(n, w)| == w && Number(Digits(n, w)) == Some(n)
  {
    if w == 0 {
    } else {
      DigitsNumber(n / 10, w - 1);
      assert Digits(n, w)[..w - 1] == Digits(n / 10, w - 1);
    }
  }

  /** Comparison of TEXT values: byte by byte. */
  predicate TextLess(a: Bytes, b: Bytes) {
    b != [] && (a == [] || a[0] < b[0] || (a[0] == b[0] && TextLess(a[1..], b[1..])))
  }

  predicate TextAtMost(a: Bytes, b: Bytes) { a == b || TextLess(a, b) }

  lemma {:induction false} TextLessBlocks(a1: Bytes, a2: Bytes, b1: Bytes, b2: Bytes)
    requires |a1| == |b1|
    ensures TextLess(a1 + a2, b1 + b2) <==> TextLess(a1, b1) || (a1 == b1 && TextLess(a2, b2))
  {
    if a1 == [] {
      assert a1 + a2 == a2 && b1 + b2 == b2;
    } else {
      assert (a1 + a2)[1..] == a1[1..] + a2 && (b1 + b2)[1..] == b1[1..] + b2;
      TextLessBlocks(a1[1..], a2, b1[1..], b2);
      assert a1 == b1 <==> a1[0] == b1[0] && a1[1..] == b1[1..];
    }
  }

  lemma {:induction false} TextLessIrreflexive(a: Bytes)
    ensures !TextLess(a, a)
  {
    if a == [] {
    } else {
      TextLessIrreflexive(a[1..]);
    }
  }

  lemma {:induction false} TextLessAsymmetric(a: Bytes, b: Bytes)
    requires TextLess(a, b)
    ensures !TextLess(b, a)
  {
    if a == [] || a[0] != b[0] {
    } else {
      TextLessAsymmetric(a[1..], b[1..]);
    }
  }

  lemma {:induction false} DigitsInOrder(m: nat, n: nat, w: nat)
    requires m < n < Power10(w)
    ensures TextLess(Digits(m, w), Digits(n, w))
  {
    if w == 0 {
    } else {
      DigitsNumber(m / 10, w - 1);
      DigitsNumber(n / 10, w - 1);
      TextLessBlocks(Digits(m / 10, w - 1), [48 + m % 10], Digits(n / 10, w - 1), [48 + n % 10]);
      if m / 10 < n / 10 {
        DigitsInOrder(m / 10, n / 10, w - 1);
      }
    }
  }

  const DASH: byte := 45
  const SPACE: byte := 32
  const COLON: byte := 58

  function Text(c: Civil): Bytes {
    Digits(c.year, 4) + ([DASH] + (Digits(c.month, 2) + ([DASH] + (Digits(c.day, 2) + ([SPACE]
    + (Digits(c.hour, 2) + ([COLON] + (Digits(c.minute, 2) + ([COLON] + Digits(c.second, 2))))))))))
  }

  lemma TextRange(c: Civil)
    requires Valid(c) && c.year < 10000
    ensures c.year < Power10(4) && c.month < Power10(2) && c.day < Power10(2)
    ensures c.hour < Power10(2) && c.minute < Power10(2) && c.second < Power10(2)
  {
    assert Power10(2) == 100 && Power10(4) == 100 * Power10(2);
  }

  /** Replacing a later block of two texts that agree up to it. */
  lemma TextLessAt(p: Bytes, m: nat, n: nat, w: nat, a: Bytes, b: Bytes)
    requires m < Power10(w) && n < Power10(w)
    requires m < n || (m == n && TextLess(a, b))
    ensures TextLess(p + (Digits(m, w) + a), p + (Digits(n, w) + b))
  {
    DigitsNumber(m, w);
    DigitsNumber(n, w);
    if m < n {
      DigitsInOrder(m, n, w);
    }
    TextLessBlocks(Digits(m, w), a, Digits(n, w), b);
    TextLessBlocks(p, Digits(m, w) + a, p, Digits(n, w) + b);
  }

  /** Up to year 9999 the text order is the calendar order. */
  lemma TextInOrder(a: Civil, b: Civil)
    requires Valid(a) && Valid(b) && a.year < 10000 && b.year < 10000 && CivilBefore(a, b)
    ensures TextLess(Text(a), Text(b))
  {
    TextRange(a);
    TextRange(b);
    var (a6, b6) := (Digits(a.second, 2), Digits(b.second, 2));
    var (a5, b5) := ([COLON] + a6, [COLON] + b6);
    var (a4, b4) := ([COLON] + (Digits(a.minute, 2) + a5), [COLON] + (Digits(b.minute, 2) + b5));
    var (a3, b3) := ([SPACE] + (Digits(a.hour, 2) + a4), [SPACE] + (Digits(b.hour, 2) + b4));
    var (a2, b2) := ([DASH] + (Digits(a.day, 2) + a3), [DASH] + (Digits(b.day, 2) + b3));
    var (a1, b1) := ([DASH] + (Digits(a.month, 2) + a2), [DASH] + (Digits(b.month, 2) + b2));
    var sameDay := a.year == b.year && a.month == b.month && a.day == b.day;
    if sameDay && a.hour == b.hour && a.minute == b.minute {
      DigitsInOrder(a.second, b.second, 2);
      TextLessBlocks([COLON], a6, [COLON], b6);
    }
    if sameDay && a.hour == b.hour { TextLessAt([COLON], a.minute, b.minute, 2, a5, b5); }
    if sameDay { TextLessAt([SPACE], a.hour, b.hour, 2, a4, b4); }
    if a.year == b.year && a.month == b.month { TextLessAt([DASH], a.day, b.day, 2, a3, b3); }
    if a.year == b.year { TextLessAt([DASH], a.month, b.month, 2, a2, b2); }
    TextLessAt([], a.year, b.year, 4, a1, b1);
    assert [] + Text(a) == Text(a) && [] + Text(b) == Text(b);
  }

  /** The layout `2006-01-02 15:04:05`, which is the one the table holds. */
  function ParseDBTime(s: Bytes): Option<nat> {
    if |s| != 19 || s[4] != DASH || s[7] != DASH || s[10] != SPACE || s[13] != COLON || s[16] != COLON then None
    else match (Number(s[..4]), Number(s[5..7]), Number(s[8..10]), Number(s[11..13]), Number(s[14..16]), Number(s[17..]))
      case (Some(year), Some(month), Some(day), Some(hour), Some(minute), Some(second)) =>
        var c := Civil(year, month, day, hour, minute, second);
        if Valid(c) then Some(SecondsOf(c)) else None
      case _ => None
  }

  lemma ParseText(c: Civil)
    requires Valid(c) && c.year < 10000
    ensures ParseDBTime(Text(c)) == Some(SecondsOf(c))
  {
    TextRange(c);
    DigitsNumber(c.year, 4);
    DigitsNumber(c.month, 2);
    DigitsNumber(c.day, 2);
    DigitsNumber(c.hour, 2);
    DigitsNumber(c.minute, 2);
    DigitsNumber(c.second, 2);
    var s := Text(c);
    assert |s| == 19 && s[4] == DASH && s[7] == DASH && s[10] == SPACE && s[13] == COLON && s[16] == COLON;
    assert s[..4] == Digits(c.year, 4) && s[5..7] == Digits(c.month, 2) && s[8..10] == Digits(c.day, 2);
    assert s[11..13] == Digits(c.hour, 2) && s[14..16] == Digits(c.minute, 2) && s[17..] == Digits(c.second, 2);
    assert c == Civil(c.year, c.month, c.day, c.hour, c.minute, c.second);
  }

  // ----- Instants -----

  /** The wall clock, at a fixed offset of so many seconds from UTC, is not before year 0. */
  predicate OnTheClock(t: Instant, offset: int) { t / SECOND + offset >= 0 }

  /** ... and not after year 9999. */
  ghost predicate InRange(t: Instant, offset: int) {
    OnTheClock(t, offset) && t / SECOND + offset < YearStart(10000) * DAY
  }

  /** `formatDBTime`: the local date and time, with the fraction of a second dropped. */
  function FormatDBTime(t: Instant, offset: int): Bytes
    requires OnTheClock(t, offset)
  {
    Text(CivilOf(t / SECOND + offset))
  }

  lemma TwoDigits(n: nat)
    requires n < 100
    ensures Digits(n, 2) == [48 + n / 10, 48 + n % 10]
  {
    assert Digits(n / 10 / 10, 0) == [];
    assert Digits(n / 10, 1) == [] + [48 + n / 10 % 10];
  }

  lemma FourDigits(n: nat)
    requires n < 10000
    ensures Digits(n, 4) == [48 + n / 1000, 48 + n / 100 % 10, 48 + n / 10 % 10, 48 + n % 10]
  {
    var m := n / 100;
    TwoDigits(m);
    assert n / 10 / 10 == m;
    assert Digits(n / 10, 3) == Digits(m, 2) + [48 + n / 10 % 10];
    assert Digits(n, 4) == Digits(n / 10, 3) + [48 + n % 10];
  }

  /** The text, byte by byte: `YYYY-MM-DD HH:MM:SS`. */
  lemma TextBytes(c: Civil)
    requires Valid(c) && c.year < 10000
    ensures Text(c) == [48 + c.year / 1000, 48 + c.year / 100 % 10, 48 + c.year / 10 % 10, 48 + c.year % 10, 45]
                       + [48 + c.month / 10, 48 + c.month % 10, 45, 48 + c.day / 10, 48 + c.day % 10, 32]
                       + [48 + c.hour / 10, 48 + c.hour % 10, 58, 48 + c.minute / 10, 48 + c.minute % 10, 58]
                       + [48 + c.second / 10, 48 + c.second % 10]
  {
    FourDigits(c.year);
    TwoDigits(c.month);
    TwoDigits(c.day);
    TwoDigits(c.hour);
    TwoDigits(c.minute);
    TwoDigits(c.second);
  }

  /** A stored timestamp is the text of the one date and time, in the Gregorian calendar, that has so
      many seconds on the local clock. */
  lemma FormatsTheDate(t: Instant, offset: int, c: Civil)
    requires OnTheClock(t, offset) && Valid(c)
    requires ((365 * c.year + (c.year + 3) / 4 - (c.year + 99) / 100 + (c.year + 399) / 400)
              + MonthStart(c.year, c.month) + c.day - 1) * DAY + c.hour * 3600 + c.minute * 60 + c.second
             == t / SECOND + offset
    ensures FormatDBTime(t, offset) == Text(c)
  {
    YearStartGregorian(c.year);
    CivilOfInverts(c);
  }

  lemma LateYear(c: Civil, y: nat)
    requires Valid(c) && c.year >= y
    ensures SecondsOf(c) >= YearStart(y) * DAY
  {
    if c.year > y {
      YearsApart(y, c.year);
    }
    assert DayNumber(c) >= YearStart(y);
  }

  lemma YearInRange(t: Instant, offset: int)
    requires InRange(t, offset)
    ensures CivilOf(t / SECOND + offset).year < 10000
  {
    var c := CivilOf(t / SECOND + offset);
    if c.year >= 10000 {
      LateYear(c, 10000);
    }
  }

  lemma ParseTextOf(n: nat)
    requires CivilOf(n).year < 10000
    ensures ParseDBTime(Text(CivilOf(n))) == Some(n)
  {
    ParseText(CivilOf(n));
  }

  /** A stored timestamp reads back as the same second of the local clock: the reader takes the
      local wall clock for UTC, so the instant it gets is off by the offset. */
  lemma ParseInvertsFormat(t: Instant, offset: int)
    requires InRange(t, offset)
    ensures ParseDBTime(FormatDBTime(t, offset)) == Some(t / SECOND + offset)
  {
    YearInRange(t, offset);
    ParseTextOf(t / SECOND + offset);
  }

  lemma FormatInOrder(t: Instant, u: Instant, offset: int)
    requires InRange(t, offset) && InRange(u, offset) && t / SECOND < u / SECOND
    ensures TextLess(FormatDBTime(t, offset), FormatDBTime(u, offset))
  {
    YearInRange(t, offset);
    YearInRange(u, offset);
    var a, b := CivilOf(t / SECOND + offset), CivilOf(u / SECOND + offset);
    if CivilBefore(b, a) {
      SecondsInOrder(b, a);
    }
    assert CivilBefore(a, b) || a == b;
    TextInOrder(a, b);
  }

  /** Comparing stored timestamps as text compares the seconds they stand for. */
  lemma TextOrderIsTimeOrder(t: Instant, u: Instant, offset: int)
    requires InRange(t, offset) && InRange(u, offset)
    ensures TextAtMost(FormatDBTime(t, offset), FormatDBTime(u, offset)) <==> t / SECOND <= u / SECOND
  {
    if t / SECOND < u / SECOND {
      FormatInOrder(t, u, offset);
    } else if u / SECOND < t / SECOND {
      FormatInOrder(u, t, offset);
      TextLessAsymmetric(FormatDBTime(u, offset), FormatDBTime(t, offset));
      TextLessIrreflexive(FormatDBTime(t, offset));
    }
  }

  // ----- The sweep and the proxy check -----

  /** The sweep's condition on a row that is to expire at `expire`. */
  predicate Swept(expire: Instant, now: Instant, offset: int)
    requires OnTheClock(expire, offset) && OnTheClock(now, offset)
  {
    TextAtMost(FormatDBTime(expire, offset), FormatDBTime(now, offset))
  }

  /** The time check of `validateProxyToken` on the expiry it reads from the row. */
  predicate Refused(expire: Instant, now: Instant, offset: int)
    requires OnTheClock(expire, offset)
  {
    match ParseDBTime(FormatDBTime(expire, offset))
    case Some(seconds) => now > seconds * SECOND
    case None => true
  }

  lemma RefusedAfter(expire: Instant, now: Instant, offset: int, seconds: nat)
    requires OnTheClock(expire, offset) && ParseDBTime(FormatDBTime(expire, offset)) == Some(seconds)
    ensures Refused(expire, now, offset) <==> now > seconds * 1_000_000_000
  {
  }

  /** The instant a row's expiry is rounded down to. */
  function Stored(expire: Instant): Instant { expire / SECOND * SECOND }

  /** The row is swept from its stored expiry on, and its token refused after that plus the offset. */
  lemma ExpiryInstants(expire: Instant, now: Instant, offset: int)
    requires InRange(expire, offset) && InRange(now, offset)
    ensures Swept(expire, now, offset) <==> now >= Stored(expire)
    ensures Refused(expire, now, offset) <==> now > Stored(expire) + offset * SECOND
  {
    TextOrderIsTimeOrder(expire, now, offset);
    ParseInvertsFormat(expire, offset);
    RefusedAfter(expire, now, offset, expire / SECOND + offset);
    assert (expire / SECOND + offset) * SECOND == Stored(expire) + offset * SECOND;
  }

  /** Sweep and proxy check agree at every instant other than the stored expiry itself exactly
      when the server's clock runs on UTC. */
  lemma SweepAgreesWithCheck(expire: Instant, offset: int)
    requires InRange(expire, offset) && expire / SECOND + offset > 0 && expire >= SECOND
    ensures (forall now: Instant | InRange(now, offset) && now != Stored(expire) ::
               Swept(expire, now, offset) <==> Refused(expire, now, offset))
            <==> offset == 0
  {
    forall now: Instant | InRange(now, offset)
      ensures Swept(expire, now, offset) <==> now >= Stored(expire)
      ensures Refused(expire, now, offset) <==> now > Stored(expire) + offset * SECOND
    {
      ExpiryInstants(expire, now, offset);
    }
    var early, late := Stored(expire) - 1, Stored(expire) + 1;
    assert InRange(early, offset) && InRange(late, offset);
    assert offset > 0 ==> Swept(expire, late, offset) && !Refused(expire, late, offset);
    assert offset < 0 ==> !Swept(expire, early, offset) && Refused(expire, early, offset);
  }
}
