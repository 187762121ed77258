/** kernel/lib/more_time.cpp: conversions between seconds since the Epoch and broken-down time.

    The reference is the Gregorian calendar itself: years are laid end to end from 1970-01-01,
    each 365 or 366 days long, and a year is its twelve months laid end to end. Nothing in the
    reference mentions the 400-, 100- and 4-year cycles, the March-based year or the tables that
    the two conversions use. */
module Calendar {

  // ----- The reference calendar -----

  predicate Leap(y: int) {
    y % 4 == 0 && (y % 100 != 0 || y % 400 == 0)
  }

  function YearLength(y: int): nat {
    if Leap(y) then 366 else 365
  }

  function MonthLength(y: int, m: int): nat
    requires 0 <= m < 12
  {
    if m == 1 then (if Leap(y) then 29 else 28)
    else if m == 3 || m == 5 || m == 8 || m == 10 then 30
    else 31
  }

  /** Days from 1970-01-01 to the first of January of year y, negative before 1970. */
  function DaysBeforeYear(y: int): int
    decreases if y < 1970 then 1970 - y else y - 1970
  {
    if y == 1970 then 0
    else if y > 1970 then DaysBeforeYear(y - 1) + YearLength(y - 1)
    else DaysBeforeYear(y + 1) - YearLength(y)
  }

  /** Days from the first of January of year y to the first day of month m (0 is January). */
  function DaysBeforeMonth(y: int, m: int): nat
    requires 0 <= m < 12
  {
    if m == 0 then 0 else DaysBeforeMonth(y, m - 1) + MonthLength(y, m - 1)
  }

  /** The fields of struct tm: years count from 1900 and months from 0. */
  datatype Tm = Tm(year: int, mon: int, mday: int, hour: int, min: int, sec: int, wday: int, yday: int)

  predicate Int32(x: int) {
    -0x8000_0000 <= x <= 0x7fff_ffff
  }

  /** Seconds since the Epoch of any broken-down time whose month is a month. */
  function Seconds(tm: Tm): int
    requires 0 <= tm.mon < 12
  {
    86400 * (DaysBeforeYear(tm.year + 1900) + DaysBeforeMonth(tm.year + 1900, tm.mon) + tm.mday - 1)
    + 3600 * tm.hour + 60 * tm.min + tm.sec
  }

  predicate ValidDate(tm: Tm) {
    && 0 <= tm.mon < 12 && 1 <= tm.mday <= MonthLength(tm.year + 1900, tm.mon)
    && 0 <= tm.hour < 24 && 0 <= tm.min < 60 && 0 <= tm.sec < 60
  }

  /** 1970-01-01 was a Thursday; Sunday is 0. */
  predicate ValidTm(tm: Tm) {
    && ValidDate(tm)
    && tm.yday == DaysBeforeMonth(tm.year + 1900, tm.mon) + tm.mday - 1
    && tm.wday == (DaysBeforeYear(tm.year + 1900) + tm.yday + 4) % 7
  }

  // ----- Closed forms of the reference -----

  function LeapsBefore(y: int): int {
    (y - 1) / 4 - (y - 1) / 100 + (y - 1) / 400
  }

  lemma FourthStep(n: int)
    ensures n / 4 - (n - 1) / 4 == if n % 4 == 0 then 1 else 0
  {
  }

  lemma HundredthStep(n: int)
    ensures n / 100 - (n - 1) / 100 == if n % 100 == 0 then 1 else 0
  {
  }

  lemma FourHundredthStep(n: int)
    ensures n / 400 - (n - 1) / 400 == if n % 400 == 0 then 1 else 0
  {
  }

  lemma CyclesNest(n: int)
    ensures n % 400 == 0 ==> n % 100 == 0
    ensures n % 100 == 0 ==> n % 4 == 0
  {
    if n % 400 == 0 {
      Hundreds(n, 4 * (n / 400));
    }
    if n % 100 == 0 {
      Fours(n, 25 * (n / 100));
    }
  }

  lemma Hundreds(n: int, k: int)
    requires n == 100 * k
    ensures n % 100 == 0
  {
  }

  lemma Fours(n: int, k: int)
    requires n == 4 * k
    ensures n % 4 == 0
  {
  }

  lemma LeapStep(y: int)
    ensures LeapsBefore(y + 1) == LeapsBefore(y) + (if Leap(y) then 1 else 0)
  {
    FourthStep(y);
    HundredthStep(y);
    FourHundredthStep(y);
    CyclesNest(y);
  }

  lemma {:induction false} YearsClosedForm(y: int)
    ensures DaysBeforeYear(y) == 365 * (y - 1970) + LeapsBefore(y) - 477
    decreases if y < 1970 then 1970 - y else y - 1970
  {
    if y > 1970 {
      YearsClosedForm(y - 1);
      LeapStep(y - 1);
    } else if y < 1970 {
      YearsClosedForm(y + 1);
      LeapStep(y);
    }
  }

  /** A year written in 400-, 100-, 4- and 1-year cycles gives its quotients and remainders. */
  lemma CycleDigits(n: int, qc: int, c: int, q: int, r: int)
    requires 0 <= c <= 3 && 0 <= q <= 24 && 0 <= r <= 3
    requires n == r + 4 * q + 100 * c + 400 * qc
    ensures n / 4 == q + 25 * c + 100 * qc && n % 4 == r
    ensures n / 100 == c + 4 * qc && n % 100 == r + 4 * q
    ensures n / 400 == qc && n % 400 == r + 4 * q + 100 * c
  {
  }

  lemma MonthsClosedForm(y: int)
    ensures forall m :: 0 <= m < 12 ==>
      DaysBeforeMonth(y, m) == THROUGH_MONTH[m] + (if Leap(y) && m >= 2 then 1 else 0)
  {
    assert DaysBeforeMonth(y, 1) == 31;
    var f := MonthLength(y, 1);
    assert DaysBeforeMonth(y, 2) == 31 + f;
    assert DaysBeforeMonth(y, 3) == 62 + f;
    assert DaysBeforeMonth(y, 4) == 92 + f;
    assert DaysBeforeMonth(y, 5) == 123 + f;
    assert DaysBeforeMonth(y, 6) == 153 + f;
    assert DaysBeforeMonth(y, 7) == 184 + f;
    assert DaysBeforeMonth(y, 8) == 215 + f;
    assert DaysBeforeMonth(y, 9) == 245 + f;
    assert DaysBeforeMonth(y, 10) == 276 + f;
    assert DaysBeforeMonth(y, 11) == 306 + f;
  }

  const THROUGH_MONTH: seq<int> := [0, 31, 59, 90, 120, 151, 181, 212, 243, 273, 304, 334]

  /** The day number of a date, and its place between the years around it. */
  function DayNumber(tm: Tm): int
    requires 0 <= tm.mon < 12
  {
    DaysBeforeYear(tm.year + 1900) + DaysBeforeMonth(tm.year + 1900, tm.mon) + tm.mday - 1
  }

  lemma {:induction false} MonthsOrdered(y: int, m: int, m': int)
    requires 0 <= m < m' < 12
    ensures DaysBeforeMonth(y, m) + MonthLength(y, m) <= DaysBeforeMonth(y, m')
    decreases m' - m
  {
    if m + 1 < m' {
      MonthsOrdered(y, m, m' - 1);
    }
  }

  lemma NextYear(y: int)
    ensures DaysBeforeYear(y + 1) == DaysBeforeYear(y) + YearLength(y)
  {
  }

  lemma {:induction false} YearsOrdered(y: int, y': int)
    requires y < y'
    ensures DaysBeforeYear(y) + YearLength(y) <= DaysBeforeYear(y')
    decreases y' - y
  {
    if y + 1 < y' {
      YearsOrdered(y, y' - 1);
      NextYear(y' - 1);
    } else {
      NextYear(y);
    }
  }

  // ----- Order and injectivity -----

  /** Lexicographic order, most significant field first. */
  predicate Earlier(a: Tm, b: Tm) {
    a.year < b.year || (a.year == b.year &&
      (a.mon < b.mon || (a.mon == b.mon &&
        (a.mday < b.mday || (a.mday == b.mday &&
          (a.hour < b.hour || (a.hour == b.hour &&
            (a.min < b.min || (a.min == b.min && a.sec < b.sec)))))))))
  }

  lemma EarlierDayNumber(a: Tm, b: Tm)
    requires ValidDate(a) && ValidDate(b)
    requires a.year < b.year || (a.year == b.year && (a.mon < b.mon || (a.mon == b.mon && a.mday < b.mday)))
    ensures DayNumber(a) < DayNumber(b)
  {
    var y, y' := a.year + 1900, b.year + 1900;
    if y < y' {
      YearsOrdered(y, y');
      MonthsClosedForm(y);
      MonthsClosedForm(y');
      assert DaysBeforeMonth(y, 11) + 31 == YearLength(y);
      if a.mon < 11 {
        MonthsOrdered(y, a.mon, 11);
      }
    } else if a.mon < b.mon {
      MonthsOrdered(y, a.mon, b.mon);
    }
  }

  lemma EarlierIsLess(a: Tm, b: Tm)
    requires ValidDate(a) && ValidDate(b) && Earlier(a, b)
    ensures Seconds(a) < Seconds(b)
  {
    assert Seconds(a) == 86400 * DayNumber(a) + 3600 * a.hour + 60 * a.min + a.sec;
    assert Seconds(b) == 86400 * DayNumber(b) + 3600 * b.hour + 60 * b.min + b.sec;
    if a.year != b.year || a.mon != b.mon || a.mday != b.mday {
      EarlierDayNumber(a, b);
    }
  }

  /** Two valid broken-down times that name the same second are the same. */
  lemma SecondsInjective(a: Tm, b: Tm)
    requires ValidTm(a) && ValidTm(b) && Seconds(a) == Seconds(b)
    ensures a == b
  {
    if Earlier(a, b) {
      EarlierIsLess(a, b);
    } else if Earlier(b, a) {
      EarlierIsLess(b, a);
    }
  }

  // ----- datetime_compare -----

  /** include/api/syscalls.h: years from zero and months from one. */
  datatype DateTime = DateTime(year: int, month: int, day: int, hour: int, minute: int, second: int)

  /** datetime_to_tm. */
  function TmOf(d: DateTime): Tm {
    Tm(d.year - 1900, d.month - 1, d.day, d.hour, d.minute, d.second, 0, 0)
  }

  predicate ValidDateTime(d: DateTime) {
    Int32(d.year) && ValidDate(TmOf(d))
  }

  /** What is left of a result in 32 bits. */
  function ToInt32(x: int): (r: int)
    ensures Int32(r)
    ensures Int32(x) ==> r == x
  {
    (x + 0x8000_0000) % 0x1_0000_0000 - 0x8000_0000
  }

  function DatetimeCompare(a: DateTime, b: DateTime): int {
    if a.year != b.year then ToInt32(a.year - b.year)
    else if a.month != b.month then ToInt32(a.month - b.month)
    else if a.day != b.day then ToInt32(a.day - b.day)
    else if a.hour != b.hour then ToInt32(a.hour - b.hour)
    else if a.minute != b.minute then ToInt32(a.minute - b.minute)
    else if a.second != b.second then ToInt32(a.second - b.second)
    else 0
  }

  /** Two years that are no more than 32 bits apart have the right order, and no others. */
  lemma WrappedDifference(x: int, y: int)
    requires Int32(x) && Int32(y) && x != y
    ensures ToInt32(x - y) != 0
    ensures (ToInt32(x - y) < 0 <==> x < y) <==> Int32(x - y)
  {
    if x - y > 0x7fff_ffff {
      assert (x - y + 0x8000_0000) % 0x1_0000_0000 == x - y - 0x8000_0000;
    } else if x - y < -0x8000_0000 {
      assert (x - y + 0x8000_0000) % 0x1_0000_0000 == x - y + 0x1_8000_0000;
    }
  }

  predicate SameSign(x: int, y: int) {
    (x < 0 <==> y < 0) && (x > 0 <==> y > 0)
  }

  /** datetime_compare orders valid dates as their second counts are ordered exactly if the difference of
      the years fits an int; it takes two dates for equal only if they are. */
  lemma CompareOrdersLikeSeconds(a: DateTime, b: DateTime)
    requires ValidDateTime(a) && ValidDateTime(b)
    ensures SameSign(DatetimeCompare(a, b), Seconds(TmOf(a)) - Seconds(TmOf(b))) <==> Int32(a.year - b.year)
    ensures DatetimeCompare(a, b) == 0 <==> a == b
  {
    var s, t := TmOf(a), TmOf(b);
    if Earlier(s, t) {
      EarlierIsLess(s, t);
    } else if Earlier(t, s) {
      EarlierIsLess(t, s);
    }
    if a.year != b.year {
      WrappedDifference(a.year, b.year);
    }
  }

  /** Any date of the year 2000000000 counts as earlier than one of the year -2000000000. */
  lemma CompareFarYearsFails(a: DateTime, b: DateTime)
    requires ValidDateTime(a) && ValidDateTime(b) && a.year == 2000000000 && b.year == -2000000000
    ensures DatetimeCompare(a, b) == -294967296
    ensures Seconds(TmOf(a)) > Seconds(TmOf(b))
  {
    var x, y := a.year, b.year;
    assert ToInt32(x - y) == -294967296;
    var s, t := TmOf(a), TmOf(b);
    assert Seconds(t) < Seconds(s) by {
      EarlierIsLess(t, s);
    }
  }

  /** The formula of IEEE Std 1003.1-2017, section 4.16, with its truncating divisions. */
  lemma PosixFormula(tm: Tm)
    requires ValidTm(tm) && tm.year >= 70
    ensures Seconds(tm) == tm.sec + tm.min * 60 + tm.hour * 3600 + tm.yday * 86400
      + (tm.year - 70) * 31536000 + Quot(tm.year - 69, 4) * 86400
      - Quot(tm.year - 1, 100) * 86400 + Quot(tm.year + 299, 400) * 86400
  {
    YearsClosedForm(tm.year + 1900);
    var n := tm.year;
    assert (n + 1899) / 4 == (n - 69) / 4 + 492;
    assert (n + 1899) / 100 == (n - 1) / 100 + 19;
    assert (n + 1899) / 400 == (n + 299) / 400 + 4;
  }

  // ----- C division -----

  function Quot(a: int, b: int): (q: int)
    requires b > 0
    ensures a >= 0 ==> q == a / b
    ensures a < 0 ==> q == -(-a / b)
  {
    if a >= 0 then a / b else -(-a / b)
  }

  function Rem(a: int, b: int): (r: int)
    requires b > 0
    ensures -b < r < b
  {
    if a >= 0 then a % b else -(-a % b)
  }

  /** A truncating division whose negative remainder is then moved into range. */
  method FloorDivide(a: int, b: int) returns (q: int, r: int)
    requires b > 0
    ensures 0 <= r < b && a == b * q + r
  {
    q, r := Quot(a, b), Rem(a, b);
    assert a == b * q + r;
    if r < 0 {
      q, r := q - 1, r + b;
    }
  }

  // ----- secs_to_tm -----

  const LEAPOCH := 946684800 + 86400 * (31 + 29)
  const DAYS_PER_400Y := 365 * 400 + 97
  const DAYS_PER_100Y := 365 * 100 + 24
  const DAYS_PER_4Y := 365 * 4 + 1
  const DAYS_IN_MONTH: seq<int> := [31, 30, 31, 30, 31, 31, 30, 31, 30, 31, 31, 29]

  function MarchSum(k: int): int
    requires 0 <= k <= 12
  {
    if k == 0 then 0 else MarchSum(k - 1) + DAYS_IN_MONTH[k - 1]
  }

  lemma MarchSums()
    ensures MarchSum(1) == 31 && MarchSum(2) == 61 && MarchSum(3) == 92 && MarchSum(4) == 122
    ensures MarchSum(5) == 153 && MarchSum(6) == 184 && MarchSum(7) == 214 && MarchSum(8) == 245
    ensures MarchSum(9) == 275 && MarchSum(10) == 306 && MarchSum(11) == 337 && MarchSum(12) == 366
  {
    assert MarchSum(1) == 31;
    assert MarchSum(2) == 61;
    assert MarchSum(3) == 92;
    assert MarchSum(4) == 122;
    assert MarchSum(5) == 153;
    assert MarchSum(6) == 184;
    assert MarchSum(7) == 214;
    assert MarchSum(8) == 245;
    assert MarchSum(9) == 275;
    assert MarchSum(10) == 306;
    assert MarchSum(11) == 337;
  }

  /** The year made of given cycles since 2000: whether it is leap and the days before it. */
  lemma CycleYear(n: int, qc: int, c: int, q: int, r: int)
    requires 0 <= c <= 3 && 0 <= q <= 24 && 0 <= r <= 3
    requires n == r + 4 * q + 100 * c + 400 * qc
    ensures Leap(2000 + n) <==> r == 0 && (q != 0 || c == 0)
    ensures n / 4 - n / 100 + n / 400 == q + 24 * c + 97 * qc
    ensures LeapsBefore(2000 + n) == q + 24 * c + 97 * qc + 485 - (if Leap(2000 + n) then 1 else 0)
  {
    CycleDigits(n, qc, c, q, r);
    LeapsSince2000(n);
  }

  lemma SameRemainders(n: int)
    ensures Leap(2000 + n) == Leap(n)
  {
    assert (2000 + n) % 4 == n % 4;
    assert (2000 + n) % 100 == n % 100;
    assert (2000 + n) % 400 == n % 400;
  }

  lemma QuotientsSince2000(n: int)
    ensures (2000 + n) / 4 == n / 4 + 500
    ensures (2000 + n) / 100 == n / 100 + 20
    ensures (2000 + n) / 400 == n / 400 + 5
  {
  }

  lemma LeapsSince2000(n: int)
    ensures Leap(2000 + n) == Leap(n)
    ensures LeapsBefore(2000 + n) == n / 4 - n / 100 + n / 400 + 485 - (if Leap(n) then 1 else 0)
  {
    LeapStep(2000 + n);
    SameRemainders(n);
    QuotientsSince2000(n);
    assert LeapsBefore(2000 + n + 1) == (2000 + n) / 4 - (2000 + n) / 100 + (2000 + n) / 400;
  }

  /** The first of March of year 2000 + y, counted from the Epoch. */
  lemma FirstOfMarch(y: int)
    ensures DaysBeforeYear(2000 + y) + DaysBeforeMonth(2000 + y, 2) == 11017 + 365 * y + y / 4 - y / 100 + y / 400
  {
    YearsClosedForm(2000 + y);
    MonthsClosedForm(2000 + y);
    LeapsSince2000(y);
  }

  /** The months of the March-based table against those of civil years y and y + 1. */
  lemma MarchMonths(y: int, months: int, day: int)
    requires 0 <= months < 12 && 0 <= day < DAYS_IN_MONTH[months]
    ensures months < 10 <==> MarchSum(months) + day < 306
    ensures DaysBeforeMonth(y, 2) == 59 + (if Leap(y) then 1 else 0)
    ensures months < 10 ==> DaysBeforeMonth(y, months + 2) == DaysBeforeMonth(y, 2) + MarchSum(months)
    ensures months < 10 ==> MonthLength(y, months + 2) == DAYS_IN_MONTH[months]
    ensures months >= 10 ==> DaysBeforeMonth(y + 1, months - 10) == MarchSum(months) - 306
    ensures months == 10 ==> MonthLength(y + 1, 0) == 31
    ensures months == 11 ==> MonthLength(y + 1, 1) == if Leap(y + 1) then 29 else 28
  {
    MarchSums();
    MonthsClosedForm(y);
  }

  /** A day of the March-based year 2000 + y, once its month and day are known, is a date of the
      civil calendar: March to December of the same year or January and February of the next. */
  lemma MarchBasedDate(y: int, months: int, day: int, total: int, civil: Tm)
    requires 0 <= months < 12 && 0 <= day < DAYS_IN_MONTH[months] && total == MarchSum(months) + day
    requires months == 11 && day == 28 ==> Leap(2001 + y)
    requires if months < 10 then civil.year == y + 100 && civil.mon == months + 2
             else civil.year == y + 101 && civil.mon == months - 10
    requires civil.mday == day + 1
    ensures 1 <= civil.mday <= MonthLength(civil.year + 1900, civil.mon)
    ensures DayNumber(civil) == 11017 + 365 * y + y / 4 - y / 100 + y / 400 + total
    ensures DaysBeforeMonth(civil.year + 1900, civil.mon) + day ==
      if total < 306 then total + 59 + (if Leap(2000 + y) then 1 else 0) else total - 306
  {
    MarchMonths(2000 + y, months, day);
    FirstOfMarch(y);
    NextYear(2000 + y);
  }

  datatype Cycles = Cycles(qc: int, c: int, q: int, r: int, remdays: int)

  /** The years of some cycles since 2000. */
  function Years(s: Cycles): int {
    s.r + 4 * s.q + 100 * s.c + 400 * s.qc
  }

  /** A day 366 of a March-based year is the leap day at its end. */
  lemma LastDayIsLeap(s: Cycles)
    requires 0 <= s.c <= 3 && 0 <= s.q <= 24 && s.r == 3 && (s.q == 24 ==> s.c == 3)
    ensures Leap(2001 + Years(s))
  {
    var next :=
      if s.q < 24 then Cycles(s.qc, s.c, s.q + 1, 0, 0) else Cycles(s.qc + 1, 0, 0, 0, 0);
    CycleDigits(1 + Years(s), next.qc, next.c, next.q, next.r);
    LeapsSince2000(1 + Years(s));
  }

  /** Whole centuries of days within 400 years; the last one may be a day longer. */
  method SplitCenturies(days: int) returns (c: int, rest: int)
    requires 0 <= days < DAYS_PER_400Y
    ensures 0 <= c <= 3 && 0 <= rest <= DAYS_PER_100Y && days == DAYS_PER_100Y * c + rest
    ensures rest == DAYS_PER_100Y ==> c == 3
  {
    c := Quot(days, DAYS_PER_100Y);
    if c == 4 {
      c := c - 1;
    }
    assert Int32(c * DAYS_PER_100Y);
    rest := days - c * DAYS_PER_100Y;
  }

  /** Four years at a time; the last ones of a century are a day short, but of the last century. */
  method SplitFourYears(days: int) returns (q: int, rest: int)
    requires 0 <= days <= DAYS_PER_100Y
    ensures 0 <= q <= 24 && 0 <= rest < DAYS_PER_4Y && days == DAYS_PER_4Y * q + rest
  {
    q := Quot(days, DAYS_PER_4Y);
    if q == 25 {
      q := q - 1;
    }
    assert Int32(q * DAYS_PER_4Y);
    rest := days - q * DAYS_PER_4Y;
  }

  /** Single years; the last of four is a day longer. */
  method SplitYears(days: int) returns (r: int, rest: int)
    requires 0 <= days < DAYS_PER_4Y
    ensures 0 <= r <= 3 && 0 <= rest <= 365 && days == 365 * r + rest
    ensures rest == 365 ==> r == 3
  {
    r := Quot(days, 365);
    if r == 4 {
      r := r - 1;
    }
    assert Int32(r * 365);
    rest := days - r * 365;
  }

  /** The 400-, 100-, 4- and 1-year cycles of a day counted from 2000-03-01. */
  method SplitDays(days: int) returns (s: Cycles)
    ensures 0 <= s.c <= 3 && 0 <= s.q <= 24 && 0 <= s.r <= 3 && 0 <= s.remdays <= 365
    ensures days == DAYS_PER_400Y * s.qc + DAYS_PER_100Y * s.c + DAYS_PER_4Y * s.q + 365 * s.r + s.remdays
    ensures s.remdays == 365 ==> s.r == 3 && (s.q == 24 ==> s.c == 3)
  {
    var qcCycles, remdays := FloorDivide(days, DAYS_PER_400Y);
    var cCycles, qCycles, remyears;
    cCycles, remdays := SplitCenturies(remdays);
    qCycles, remdays := SplitFourYears(remdays);
    remyears, remdays := SplitYears(remdays);
    s := Cycles(qcCycles, cCycles, qCycles, remyears, remdays);
  }

  /** Finds the month of a day of the March-based year; it never looks past the table. */
  method MonthLoop(day: int) returns (months: int, rest: int)
    requires 0 <= day <= 365
    ensures 0 <= months < 12 && 0 <= rest < DAYS_IN_MONTH[months]
    ensures MarchSum(months) + rest == day
  {
    MarchSums();
    months, rest := 0, day;
    while DAYS_IN_MONTH[months] <= rest
      invariant 0 <= months < 12 && 0 <= rest
      invariant MarchSum(months) + rest == day
      decreases 12 - months
    {
      rest := rest - DAYS_IN_MONTH[months];
      months := months + 1;
    }
  }

  /** The seconds whose broken-down year fits a 32-bit int. */
  predicate YearIsInt(t: int) {
    -67768040609740800 <= t <= 67768036191676799
  }

  /** 400-year cycles fit an int as years from the first of March of the year -2147481600 on. */
  const FIRST_CYCLE := -5368709
  const EARLIEST := LEAPOCH + 86400 * DAYS_PER_400Y * FIRST_CYCLE

  /** The seconds on whose way to a broken-down time every int value fits. */
  predicate YearFits(t: int) {
    EARLIEST <= t && YearIsInt(t)
  }

  /** Whether the int values on the way from the cycles to the year fit. */
  predicate CyclesFit(s: Cycles) {
    && Int32(s.qc) && Int32(400 * s.qc) && Int32(4 * s.q) && Int32(100 * s.c) && Int32(s.r + 4 * s.q + 100 * s.c)
    && Int32(Years(s)) && Int32(Years(s) + 100)
  }

  /** The days of the cycles are the days before their year and those into it. */
  lemma CyclesAddUp(days: int, s: Cycles, years: int)
    requires 0 <= s.c <= 3 && 0 <= s.q <= 24 && 0 <= s.r <= 3 && years == Years(s)
    requires days == DAYS_PER_400Y * s.qc + DAYS_PER_100Y * s.c + DAYS_PER_4Y * s.q + 365 * s.r + s.remdays
    ensures 365 * years + years / 4 - years / 100 + years / 400 + s.remdays == days
    ensures Leap(2000 + years) <==> s.r == 0 && (s.q != 0 || s.c == 0)
  {
    CycleYear(years, s.qc, s.c, s.q, s.r);
  }

  /** The calendar part of the conversion: days are counted from 2000-03-01. The values are those without
      a bound on ints, and fits tells whether the bound made no difference. */
  method DaysToDate(days: int) returns (fits: bool, year: int, mon: int, mday: int, yday: int)
    ensures 0 <= mon < 12 && 1 <= mday <= MonthLength(year + 1900, mon)
    ensures yday == DaysBeforeMonth(year + 1900, mon) + mday - 1
    ensures DaysBeforeYear(year + 1900) + yday == 11017 + days
    ensures fits <==> days >= DAYS_PER_400Y * FIRST_CYCLE && Int32(year)
  {
    var s := SplitDays(days);
    var leap := if s.r == 0 && (s.q != 0 || s.c == 0) then 1 else 0;
    yday := s.remdays + 31 + 28 + leap;
    if yday >= 365 + leap {
      yday := yday - (365 + leap);
    }
    var years := s.r + 4 * s.q + 100 * s.c + 400 * s.qc;
    CyclesAddUp(days, s, years);
    var months, remdays := MonthLoop(s.remdays);
    year, mon := years + 100, months + 2;
    if mon >= 12 {
      mon := mon - 12;
      year := year + 1;
    }
    fits := CyclesFit(s) && Int32(year);
    mday := remdays + 1;
    if months == 11 && remdays == 28 {
      MarchSums();
      LastDayIsLeap(s);
    }
    MarchBasedDate(years, months, remdays, s.remdays, Tm(year, mon, mday, 0, 0, 0, 0, 0));
    CyclesFitFrom(days, s, year);
  }

  lemma CyclesFitFrom(days: int, s: Cycles, year: int)
    requires 0 <= s.c <= 3 && 0 <= s.q <= 24 && 0 <= s.r <= 3 && 0 <= s.remdays <= 365
    requires days == DAYS_PER_400Y * s.qc + DAYS_PER_100Y * s.c + DAYS_PER_4Y * s.q + 365 * s.r + s.remdays
    requires s.remdays == 365 ==> s.r == 3 && (s.q == 24 ==> s.c == 3)
    requires year == Years(s) + 100 || year == Years(s) + 101
    ensures CyclesFit(s) && Int32(year) <==> days >= DAYS_PER_400Y * FIRST_CYCLE && Int32(year)
  {
  }

  /** The seconds that the range check at the top of secs_to_tm turns away. */
  predicate OutOfRange(t: int) {
    t < -0x8000_0000 * 31622400 || t > 0x7fff_ffff * 31622400
  }

  /** What becomes of a number of seconds: turned away, a date, or an int that overflows on the way. */
  datatype Converted = Rejected | Overflow | Date(tm: Tm)

  method SecsToTm(t: int) returns (c: Converted)
    ensures c.Rejected? <==> OutOfRange(t)
    ensures c.Date? <==> YearFits(t)
    ensures c.Date? ==> ValidTm(c.tm) && Seconds(c.tm) == t && Int32(c.tm.year)
  {
    if t < -0x8000_0000 * 31622400 || t > 0x7fff_ffff * 31622400 {
      return Rejected;
    }
    var secs := t - LEAPOCH;
    var days, remsecs := FloorDivide(secs, 86400);
    var weeks, wday := FloorDivide(3 + days, 7);
    var fits, year, mon, mday, yday := DaysToDate(days);
    var hour, min, sec := Quot(remsecs, 3600), Rem(Quot(remsecs, 60), 60), Rem(remsecs, 60);
    TimeOfDay(remsecs);
    WeekShift(days, weeks, wday);
    var tm := Tm(year, mon, mday, hour, min, sec, wday, yday);
    SmallYear(tm);
    assert t == LEAPOCH + 86400 * days + remsecs;
    assert days >= DAYS_PER_400Y * FIRST_CYCLE <==> t >= EARLIEST;
    c := if fits then Date(tm) else Overflow;
  }

  lemma WeekShift(days: int, weeks: int, wday: int)
    requires 0 <= wday < 7 && 3 + days == 7 * weeks + wday
    ensures (11017 + days + 4) % 7 == wday
  {
    assert 11017 + days + 4 == 7 * (weeks + 1574) + wday;
  }

  lemma TimeOfDay(secs: int)
    requires 0 <= secs < 86400
    ensures 0 <= secs / 3600 < 24 && 0 <= secs / 60 % 60 < 60 && 0 <= secs % 60 < 60
    ensures 3600 * (secs / 3600) + 60 * (secs / 60 % 60) + secs % 60 == secs
  {
    assert secs / 3600 == secs / 60 / 60;
  }

  // ----- tm_to_secs -----

  method MonthToSecs(y: int, month: int, isLeap: int) returns (t: int)
    requires 0 <= month < 12 && isLeap == if Leap(y) then 1 else 0
    ensures t == 86400 * DaysBeforeMonth(y, month)
  {
    var secsThroughMonth := [
      0, 31 * 86400, 59 * 86400, 90 * 86400,
      120 * 86400, 151 * 86400, 181 * 86400, 212 * 86400,
      243 * 86400, 273 * 86400, 304 * 86400, 334 * 86400];
    MonthsClosedForm(y);
    t := secsThroughMonth[month];
    if isLeap != 0 && month >= 2 {
      t := t + 86400;
    }
    assert Int32(t);
  }

  lemma FastLeaps(year: int)
    requires 2 <= year <= 138
    ensures Leap(1900 + year) <==> (year - 68) % 4 == 0
    ensures LeapsBefore(1900 + year) == (year - 68) / 4 + 477 - (if Leap(1900 + year) then 1 else 0)
  {
    var n := 1900 + year;
    FourthStep(n);
    assert n / 4 == (year - 68) / 4 + 492 && n % 4 == (year - 68) % 4;
    if n <= 2000 {
      assert (n - 1) / 100 == 19 && (n - 1) / 400 == 4;
    } else {
      assert (n - 1) / 100 == 20 && (n - 1) / 400 == 5;
    }
  }

  /** The branch for 1902 to 2038, computed in 32-bit ints: no intermediate value overflows. */
  method YearToSecsFast(year: int) returns (t: int, isLeap: int)
    requires 2 <= year <= 138
    ensures t == 86400 * DaysBeforeYear(1900 + year)
    ensures isLeap == if Leap(1900 + year) then 1 else 0
  {
    var leaps := (year - 68) / 4;
    if (year - 68) % 4 == 0 {
      leaps := leaps - 1;
      isLeap := 1;
    } else {
      isLeap := 0;
    }
    assert (isLeap == if Leap(1900 + year) then 1 else 0)
        && LeapsBefore(1900 + year) == leaps + 477 by {
      FastLeaps(year);
    }
    YearsClosedForm(1900 + year);
    assert Int32(31536000 * (year - 70)) && Int32(86400 * leaps);
    t := 31536000 * (year - 70) + 86400 * leaps;
    assert Int32(t);
  }

  /** The 400-year branch, correct on every year, those of the fast branch included. */
  method YearToSecsGeneral(year: int) returns (t: int, isLeap: int)
    requires Int32(97 * (year / 400 + 2)) && Int32(97 * (year / 400 - 2))
    ensures t == 86400 * DaysBeforeYear(1900 + year)
    ensures isLeap == if Leap(1900 + year) then 1 else 0
  {
    var centuries, leaps;
    var cycles, rem := FloorDivide(year - 100, 400);
    ghost var inCycle := rem;
    if rem == 0 {
      isLeap, centuries, leaps := 1, 0, 0;
    } else {
      if rem >= 200 {
        if rem >= 300 {
          centuries, rem := 3, rem - 300;
        } else {
          centuries, rem := 2, rem - 200;
        }
      } else {
        if rem >= 100 {
          centuries, rem := 1, rem - 100;
        } else {
          centuries := 0;
        }
      }
      assert inCycle == 100 * centuries + rem && 0 <= rem < 100;
      if rem == 0 {
        isLeap, leaps := 0, 0;
      } else {
        leaps := rem / 4;
        rem := rem % 4;
        isLeap := if rem == 0 then 1 else 0;
      }
    }
    assert 0 <= leaps <= 24 && 0 <= rem <= 3;
    assert year - 100 == rem + 4 * leaps + 100 * centuries + 400 * cycles;
    CycleYear(year - 100, cycles, centuries, leaps, rem);
    leaps := leaps + 97 * cycles + 24 * centuries - isLeap;
    assert Int32(leaps);
    YearsClosedForm(1900 + year);
    t := (year - 100) * 31536000 + leaps * 86400 + 946684800 + 86400;
  }

  method YearToSecs(year: int) returns (t: int, isLeap: int)
    requires -0x1_0000_0000 <= year <= 0x1_0000_0000
    ensures t == 86400 * DaysBeforeYear(1900 + year)
    ensures isLeap == if Leap(1900 + year) then 1 else 0
  {
    if 0 <= year - 2 <= 136 {
      t, isLeap := YearToSecsFast(year);
    } else {
      t, isLeap := YearToSecsGeneral(year);
    }
  }

  /** tm with its month carried into the year. */
  function CarryMonth(tm: Tm): (r: Tm)
    ensures 0 <= r.mon < 12 && 12 * r.year + r.mon == 12 * tm.year + tm.mon
    ensures 0 <= tm.mon < 12 ==> r == tm
  {
    tm.(year := tm.year + tm.mon / 12, mon := tm.mon % 12)
  }

  method TmToSecs(tm: Tm) returns (t: int)
    requires Int32(tm.year) && Int32(tm.mon) && Int32(tm.mday - 1)
    ensures t == Seconds(CarryMonth(tm))
  {
    var year, month := tm.year, tm.mon;
    if month >= 12 || month < 0 {
      var adj;
      adj, month := FloorDivide(month, 12);
      year := year + adj;
    }
    var isLeap, m;
    t, isLeap := YearToSecs(year);
    m := MonthToSecs(1900 + year, month, isLeap);
    t := t + m;
    t := t + 86400 * (tm.mday - 1);
    t := t + 3600 * tm.hour;
    t := t + 60 * tm.min;
    t := t + tm.sec;
  }

  // ----- The two conversions are inverses -----

  method SecsRoundTrip(t: int) returns (c: Converted, t': int)
    ensures c.Date? <==> YearFits(t)
    ensures c.Date? ==> t' == t
  {
    c := SecsToTm(t);
    t' := 0;
    if c.Date? {
      t' := TmToSecs(c.tm);
    }
  }

  /** From the first of March of the first 400-year cycle on. */
  predicate LateEnough(d: Tm) {
    d.year > 400 * FIRST_CYCLE + 100 || (d.year == 400 * FIRST_CYCLE + 100 && d.mon >= 2)
  }

  lemma EarliestDate(d: Tm)
    requires ValidTm(d)
    ensures Seconds(d) >= EARLIEST <==> LateEnough(d)
  {
    var first := Tm(400 * FIRST_CYCLE + 100, 2, 1, 0, 0, 0, 0, 0);
    FirstOfMarch(400 * FIRST_CYCLE);
    assert Seconds(first) == EARLIEST;
    if Earlier(d, first) {
      EarlierIsLess(d, first);
    } else if Earlier(first, d) {
      EarlierIsLess(first, d);
    }
  }

  /** Every date of an int year comes back, but for those of the first years, where an int overflows. */
  method DateRoundTrip(d: Tm) returns (c: Converted)
    requires ValidTm(d) && Int32(d.year)
    ensures c == if LateEnough(d) then Date(d) else Overflow
  {
    SmallYear(d);
    EarliestDate(d);
    var t := TmToSecs(d);
    c := SecsToTm(t);
    if c.Date? {
      SecondsInjective(d, c.tm);
    }
  }

  /** The years of the representable seconds are exactly the 32-bit ints. */
  lemma SmallYear(tm: Tm)
    requires ValidTm(tm)
    ensures YearIsInt(Seconds(tm)) <==> Int32(tm.year)
  {
    var y, y' := tm.year + 1900, tm.year + 1901;
    YearsClosedForm(y);
    NextYear(y);
    MonthsClosedForm(y);
    assert DaysBeforeYear(y) <= DayNumber(tm) < DaysBeforeYear(y');
    if tm.year < -0x8000_0000 {
      EarliestDay(-0x8000_0000 + 1900);
      YearsOrderedOrSame(y', -0x8000_0000 + 1900);
    } else {
      EarliestDay(-0x8000_0000 + 1900);
      YearsOrderedOrSame(-0x8000_0000 + 1900, y);
    }
    if tm.year > 0x7fff_ffff {
      LatestDay(0x8000_0000 + 1900);
      YearsOrderedOrSame(0x8000_0000 + 1900, y);
    } else {
      LatestDay(0x8000_0000 + 1900);
      YearsOrderedOrSame(y', 0x8000_0000 + 1900);
    }
  }

  lemma YearsOrderedOrSame(y: int, y': int)
    requires y <= y'
    ensures DaysBeforeYear(y) <= DaysBeforeYear(y')
  {
    if y < y' {
      YearsOrdered(y, y');
    }
  }

  lemma EarliestDay(y: int)
    requires y == -0x8000_0000 + 1900
    ensures 86400 * DaysBeforeYear(y) == -67768040609740800
  {
    YearsClosedForm(y);
    assert (y - 1) / 4 == -536870438 && (y - 1) / 100 == -21474818 && (y - 1) / 400 == -5368705;
  }

  lemma LatestDay(y: int)
    requires y == 0x8000_0000 + 1900
    ensures 86400 * DaysBeforeYear(y) == 67768036191676800
  {
    YearsClosedForm(y);
    assert (y - 1) / 4 == 536871386 && (y - 1) / 100 == 21474855 && (y - 1) / 400 == 5368713;
  }
}
