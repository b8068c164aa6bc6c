/** mktime of the system clock: seconds since 1970 from a Gregorian date, in 32-bit and 64-bit unsigned arithmetic. */
module Mktime {

  const U32 := 0x1_0000_0000
  const U64 := 0x1_0000_0000_0000_0000
  const DAY := 86400

  // ----- the calendar -----

  predicate Leap(y: int) {
    y % 4 == 0 && (y % 100 != 0 || y % 400 == 0)
  }

  function MonthDays(y: int, m: int): int {
    if m == 2 then (if Leap(y) then 29 else 28) else if m == 4 || m == 6 || m == 9 || m == 11 then 30 else 31
  }

  datatype Date = Date(year: int, mon: int, day: int)

  predicate Valid(d: Date) {
    1 <= d.year && 1 <= d.mon <= 12 && 1 <= d.day <= MonthDays(d.year, d.mon)
  }

  /** The days of the years 1 to y - 1. */
  function YearStart(y: int): int
    requires 1 <= y
    decreases y
  {
    if y == 1 then 0 else YearStart(y - 1) + if Leap(y - 1) then 366 else 365
  }

  /** The days of the months before m. */
  function MonthStart(y: int, m: int): int
    requires 1 <= m <= 13
    decreases m
  {
    if m == 1 then 0 else MonthStart(y, m - 1) + MonthDays(y, m - 1)
  }

  /** The days from 1 January 1970. */
  function DayNumber(d: Date): int
    requires Valid(d)
  {
    YearStart(d.year) - YearStart(1970) + MonthStart(d.year, d.mon) + d.day - 1
  }

  function NextDay(d: Date): Date {
    if d.day < MonthDays(d.year, d.mon) then d.(day := d.day + 1)
    else if d.mon < 12 then Date(d.year, d.mon + 1, 1)
    else Date(d.year + 1, 1, 1)
  }

  /** The whole year is its twelve months. */
  lemma YearLength(y: int)
    ensures MonthStart(y, 13) == if Leap(y) then 366 else 365
  {
    MonthStarts(y, 12);
  }

  lemma MonthStarts(y: int, m: int)
    requires 1 <= m <= 12
    ensures MonthStart(y, m) == (if m <= 2 then 31 * (m - 1) else 367 * (m - 2) / 12 + 29 + if Leap(y) then 1 else 0)
  {
    if m > 1 {
      MonthStarts(y, m - 1);
    }
  }

  /** The next day has the next number. */
  lemma NextDayNumber(d: Date)
    requires Valid(d)
    ensures Valid(NextDay(d)) && DayNumber(NextDay(d)) == DayNumber(d) + 1
  {
    if d.day == MonthDays(d.year, d.mon) && d.mon == 12 {
      YearLength(d.year);
    }
  }

  predicate Earlier(a: Date, b: Date) {
    a.year < b.year || (a.year == b.year && (a.mon < b.mon || (a.mon == b.mon && a.day < b.day)))
  }

  /** Later dates have larger numbers. */
  lemma {:induction false} EarlierIsSmaller(a: Date, b: Date)
    requires Valid(a) && Valid(b) && Earlier(a, b)
    ensures DayNumber(a) < DayNumber(b)
    decreases b.year, b.mon, b.day
  {
    // The day before b is a or still later than a.
    var before := if b.day > 1 then b.(day := b.day - 1)
                  else if b.mon > 1 then Date(b.year, b.mon - 1, MonthDays(b.year, b.mon - 1))
                  else Date(b.year - 1, 12, 31);
    NextDayNumber(before);
    if before != a {
      EarlierIsSmaller(a, before);
    }
  }

  // ----- the code -----

  /** The year that starts in March, to which the date belongs. */
  function MarchYear(d: Date): int {
    if d.mon <= 2 then d.year - 1 else d.year
  }

  /** The term of the code that is computed modulo 2^32. */
  function YearTerm(d: Date): int {
    MarchYear(d) * 365 - 719499
  }

  /** What mktime returns for midnight: the year term loses its multiple of 2^32. */
  function Seconds(d: Date): int
    requires Valid(d)
  {
    (DayNumber(d) - U32 * (YearTerm(d) / U32)) * DAY
  }

  method Mktime(year0: int, mon0: int, day: int, hour: int, min: int, sec: int) returns (r: int)
    requires Valid(Date(year0, mon0, day)) && year0 < U32
    requires 0 <= hour < U32 && 0 <= min < U32 && 0 <= sec < U32
    ensures var d := Date(year0, mon0, day);
            r == Seconds(d) + hour * 3600 + min * 60 + sec && 0 <= r < U64
  {
    hide DayNumber, YearTerm, Valid;
    ghost var d := Date(year0, mon0, day);
    Bounds(d);
    var year, mon := year0, (mon0 - 2) % U32;
    if 0 >= (if mon < 0x8000_0000 then mon else mon - U32) {
      mon := (mon + 12) % U32;
      year := (year - 1) % U32;
    }
    r := DayCount(d, year, mon, day);
    r := Clock(r, hour, min, sec);
    Distribute(r, DayNumber(d) - U32 * (YearTerm(d) / U32), hour, min, sec);
  }

  /** Hours, minutes and seconds, modulo 2^64. */
  method Clock(days: int, hour: int, min: int, sec: int) returns (r: int)
    requires 0 <= days < 2 * U32 && 0 <= hour < U32 && 0 <= min < U32 && 0 <= sec < U32
    ensures r == ((days * 24 + hour) * 60 + min) * 60 + sec < U64
  {
    var h, m := days * 24 + hour, (days * 24 + hour) * 60 + min;
    NoWrap(days * 24);
    NoWrap(h);
    NoWrap(h * 60);
    NoWrap(m);
    NoWrap(m * 60);
    NoWrap(m * 60 + sec);
    r := days;
    r := r * 24 % U64;
    r := (r + hour) % U64;
    r := r * 60 % U64;
    r := (r + min) % U64;
    r := r * 60 % U64;
    r := (r + sec) % U64;
  }

  lemma NoWrap(x: int)
    requires 0 <= x < U64
    ensures x % U64 == x
  {
  }

  lemma Distribute(r: int, days: int, hour: int, min: int, sec: int)
    requires r == ((days * 24 + hour) * 60 + min) * 60 + sec
    ensures r == days * DAY + hour * 3600 + min * 60 + sec
  {
  }

  lemma Bounds(d: Date)
    requires Valid(d)
    ensures 1 <= d.year && 1 <= d.mon <= 12 && 1 <= d.day <= 31
  {
  }

  /** The day part, with the year and the month counted from March. */
  method DayCount(ghost d: Date, year: int, mon: int, day: int) returns (r: int)
    requires Valid(d) && d.year < U32 && day == d.day
    requires year == MarchYear(d) && mon == if d.mon <= 2 then d.mon + 10 else d.mon - 2
    ensures r == DayNumber(d) - U32 * (YearTerm(d) / U32) && 0 <= r < 2 * U32
  {
    hide DayNumber, YearTerm;
    DayFormula(d);
    WrapYear(d);
    YearTermIs(d);
    r := SmallTerms(year, mon, day);
    r := r + ((year * 365) % U32 - 719499) % U32;
  }

  method SmallTerms(year: int, mon: int, day: int) returns (r: int)
    requires 0 <= year < U32 && 1 <= mon <= 12 && 1 <= day <= 31
    ensures r == year / 4 - year / 100 + year / 400 + 367 * mon / 12 + day && 0 <= r < U32
  {
    Quarters(year);
    var months := 367 * mon / 12;
    var leaps := year / 4 - year / 100;
    InWord(leaps);
    InWord(leaps + year / 400);
    InWord(leaps + year / 400 + months + day);
    r := (leaps % U32 + year / 400) % U32;
    r := (r + months + day) % U32;
  }

  lemma InWord(x: int)
    requires 0 <= x < U32
    ensures x % U32 == x
  {
  }

  lemma Quarters(y: int)
    requires 0 <= y < U32
    ensures 0 <= y / 400 <= y / 100 <= y / 4 < 0x4000_0000
  {
  }

  lemma YearTermIs(d: Date)
    ensures YearTerm(d) == MarchYear(d) * 365 - 719499
  {
  }

  lemma WrapYear(d: Date)
    ensures ((MarchYear(d) * 365) % U32 - 719499) % U32 == YearTerm(d) - U32 * (YearTerm(d) / U32)
  {
  }

  /** The closed form of the years. */
  lemma {:induction false} YearStarts(y: int)
    requires 1 <= y
    ensures var p := y - 1; YearStart(y) == 365 * p + p / 4 - p / 100 + p / 400
  {
    if y > 1 {
      YearStarts(y - 1);
      LeapSteps(y - 1);
    }
  }

  lemma LeapSteps(p: int)
    ensures p / 4 - p / 100 + p / 400 - ((p - 1) / 4 - (p - 1) / 100 + (p - 1) / 400) == if Leap(p) then 1 else 0
  {
    MultipleStep(p, 4);
    MultipleStep(p, 100);
    MultipleStep(p, 400);
    Divides(p, 100, 4);
    Divides(p, 400, 4);
  }

  lemma MultipleStep(p: int, n: int)
    requires n > 1
    ensures p / n - (p - 1) / n == if p % n == 0 then 1 else 0
  {
    var q, r := p / n, p % n;
    if r == 0 {
      assert p - 1 == (q - 1) * n + (n - 1);
      Quotient(p - 1, q - 1, n - 1, n);
    } else {
      Quotient(p - 1, q, r - 1, n);
    }
  }

  lemma Quotient(a: int, q: int, r: int, n: int)
    requires n > 0 && a == q * n + r && 0 <= r < n
    ensures a / n == q
  {
    var k := a / n - q;
    assert a == (a / n) * n + a % n;
    assert k * n == r - a % n;
  }

  lemma Divides(p: int, n: int, k: int)
    requires (n == 100 && k == 4) || (n == 400 && k == 4)
    ensures p % n == 0 ==> p % k == 0 && (n == 400 ==> p % 100 == 0)
  {
  }

  /** The formula of the code counts the days, if no term wraps. */
  lemma DayFormula(d: Date)
    requires Valid(d)
    ensures var y, m := MarchYear(d), if d.mon <= 2 then d.mon + 10 else d.mon - 2;
            DayNumber(d) == y / 4 - y / 100 + y / 400 + 367 * m / 12 + d.day + y * 365 - 719499
  {
    hide YearStart, MonthStart;
    YearStarts(d.year);
    YearStarts(1970);
    MonthStarts(d.year, d.mon);
    LeapSteps(d.year);
  }

  // ----- when it is right -----

  /** mktime is exact from 1 March 1972 until the year term passes 2^32, and off by 2^32 days before that. */
  lemma ExactWhen(d: Date)
    requires Valid(d)
    ensures Seconds(d) == DayNumber(d) * DAY <==> 0 <= YearTerm(d) < U32
    ensures 0 <= YearTerm(d) <==> !Earlier(d, Date(1972, 3, 1))
    ensures Earlier(d, Date(1972, 3, 1)) ==> Seconds(d) == (DayNumber(d) + U32) * DAY
  {
    hide DayNumber;
    var w := YearTerm(d) / U32;
    assert YearTerm(d) == w * U32 + YearTerm(d) % U32;
  }

  /** The anchors: 1 January 1970 is day 0 and 1 March 1972 is day 790. */
  lemma Anchors()
    ensures DayNumber(Date(1970, 1, 1)) == 0
    ensures Seconds(Date(1972, 3, 1)) == 790 * DAY
    ensures Seconds(Date(1972, 2, 29)) == (789 + U32) * DAY
  {
    DayFormula(Date(1970, 1, 1));
    DayFormula(Date(1972, 3, 1));
    DayFormula(Date(1972, 2, 29));
  }

  /** From 1 March 1972 on the next calendar day is exactly 86400 seconds later. */
  lemma NextDaySeconds(d: Date)
    requires Valid(d) && !Earlier(d, Date(1972, 3, 1)) && YearTerm(NextDay(d)) < U32
    ensures Seconds(NextDay(d)) == Seconds(d) + DAY
  {
    NextDayNumber(d);
  }

  /** From 1 March 1972 on, different moments have different times, in the order of the calendar. */
  lemma LaterIsLarger(a: Date, s: int, b: Date, t: int)
    requires Valid(a) && Valid(b) && 0 <= s < DAY && 0 <= t < DAY
    requires !Earlier(a, Date(1972, 3, 1)) && !Earlier(b, Date(1972, 3, 1)) && YearTerm(a) < U32 && YearTerm(b) < U32
    ensures Seconds(a) + s < Seconds(b) + t <==> Earlier(a, b) || (a == b && s < t)
  {
    ExactWhen(a);
    ExactWhen(b);
    if Earlier(a, b) {
      EarlierIsSmaller(a, b);
    } else if a != b {
      EarlierIsSmaller(b, a);
    }
  }
}
