/**
  The date arithmetic of the HTTP server: seconds since 1970 from a broken-down time, by a closed formula with a
  quarter-year leap count. The meaning it is measured against counts the days of every year and month of the
  Gregorian calendar one by one.
 */
module CivilTime {

  /** struct tm, with the calendar year itself (tm_year + 1900) and the month from 0. */
  datatype Tm = Tm(year: int, mon: int, mday: int, hour: int, min: int, sec: int)

  // ---------- the calendar ----------

  predicate Leap(year: int) { year % 4 == 0 && (year % 100 == 0 ==> year % 400 == 0) }

  function DaysInYear(year: int): int { if Leap(year) then 366 else 365 }

  function DaysInMonth(year: int, mon: int): int {
    if mon == 1 then (if Leap(year) then 29 else 28)
    else if mon == 3 || mon == 5 || mon == 8 || mon == 10 then 30
    else 31
  }

  /** Days from the start of 1970 to the start of a year, counted year by year. */
  function DaysToYear(year: int): int
    decreases if year >= 1970 then year - 1970 else 1970 - year
  {
    if year == 1970 then 0
    else if year > 1970 then DaysToYear(year - 1) + DaysInYear(year - 1)
    else DaysToYear(year + 1) - DaysInYear(year)
  }

  function DaysToMonth(year: int, mon: nat): int {
    if mon == 0 then 0 else DaysToMonth(year, mon - 1) + DaysInMonth(year, mon - 1)
  }

  /** The seconds from the start of 1970. */
  function Seconds(tm: Tm): int
    requires 0 <= tm.mon < 12
  {
    (DaysToYear(tm.year) + DaysToMonth(tm.year, tm.mon) + tm.mday - 1) * 86400
    + tm.hour * 3600 + tm.min * 60 + tm.sec
  }

  predicate ValidDate(tm: Tm) {
    0 <= tm.mon < 12 && 1 <= tm.mday <= DaysInMonth(tm.year, tm.mon)
    && 0 <= tm.hour < 24 && 0 <= tm.min < 60 && 0 <= tm.sec < 60
  }

  // ---------- the program ----------

  /** Division as C does it, towards zero. */
  function Quotient(a: int, b: int): int
    requires b > 0
  {
    if a >= 0 then a / b else -((-a) / b)
  }

  /** The nested conditionals of is_leap are the Gregorian rule. */
  function IsLeap(year: int): (r: int)
    ensures r == if Leap(year) then 1 else 0
  {
    Multiples(year);
    if year % 400 != 0 then (if year % 100 != 0 then (if year % 4 != 0 then 0 else 1) else 0) else 1
  }

  const MONTHTAB: seq<int> := [0, 31, 59, 90, 120, 151, 181, 212, 243, 273, 304, 334]

  /** The days before a year that the formula of tm_to_time counts. */
  function FormulaDays(year: int): int { (year - 1970) * 365 + Quotient(year - 1969, 4) }

  /** Where the quarter-year count agrees with the calendar. */
  predicate Covered(year: int) {
    1969 <= year <= 2100
    || (1900 < year < 1969 && year % 4 == 1)
    || (1801 <= year <= 1900 && year % 4 != 1)
  }

  /** tm_to_time: right exactly in the covered years, whatever the other fields, and otherwise off by whole days. */
  method TmToTime(tm: Tm) returns (t: int)
    requires 0 <= tm.mon < 12
    ensures t == Seconds(tm) + (FormulaDays(tm.year) - DaysToYear(tm.year)) * 86400
    ensures t == Seconds(tm) <==> Covered(tm.year)
  {
    var tm_year := tm.year - 1900;
    t := (tm_year - 70) * 365;
    t := t + Quotient(tm_year - 69, 4);
    t := t + MONTHTAB[tm.mon];
    if tm.mon >= 2 && IsLeap(tm_year + 1900) == 1 {
      t := t + 1;
    }
    t := t + tm.mday - 1;
    t := t * 24 + tm.hour;
    t := t * 60 + tm.min;
    t := t * 60 + tm.sec;
    MonthTable(tm.year, tm.mon);
    CoveredIff(tm.year);
  }

  // ---------- why ----------

  lemma MonthTable(year: int, mon: nat)
    requires mon < 12
    ensures DaysToMonth(year, mon) == MONTHTAB[mon] + if mon >= 2 && Leap(year) then 1 else 0
  {
    if mon > 0 { MonthTable(year, mon - 1); }
  }

  /** Leap years from 1970 on, or minus those before it, by the rule of fours, hundreds and four hundreds. */
  function LeapCount(year: int): int { (year - 1) / 4 - (year - 1) / 100 + (year - 1) / 400 - 477 }

  lemma LeapCountStep(year: int)
    ensures LeapCount(year + 1) == LeapCount(year) + if Leap(year) then 1 else 0
  {
    Fours(year);
    Hundreds(year);
    FourHundreds(year);
    Multiples(year);
  }

  // A quotient goes up at the multiples of the divisor.

  lemma Fours(y: int)
    ensures y / 4 == (y - 1) / 4 + if y % 4 == 0 then 1 else 0
  {
    var q, m := y / 4, y % 4;
    assert y == 4 * q + m;
    if m == 0 {
      assert y - 1 == 4 * (q - 1) + 3;
    } else {
      assert y - 1 == 4 * q + (m - 1);
    }
  }

  lemma Hundreds(y: int)
    ensures y / 100 == (y - 1) / 100 + if y % 100 == 0 then 1 else 0
  {
    var q, m := y / 100, y % 100;
    assert y == 100 * q + m;
    if m == 0 {
      assert y - 1 == 100 * (q - 1) + 99;
    } else {
      assert y - 1 == 100 * q + (m - 1);
    }
  }

  lemma FourHundreds(y: int)
    ensures y / 400 == (y - 1) / 400 + if y % 400 == 0 then 1 else 0
  {
    var q, m := y / 400, y % 400;
    assert y == 400 * q + m;
    if m == 0 {
      assert y - 1 == 400 * (q - 1) + 399;
    } else {
      assert y - 1 == 400 * q + (m - 1);
    }
  }

  /** A multiple of 400 is one of 100, and that is one of 4. */
  lemma Multiples(y: int)
    ensures y % 400 == 0 ==> y % 100 == 0
    ensures y % 100 == 0 ==> y % 4 == 0
  {
    OfHundreds(y);
    OfFours(y);
  }

  lemma OfHundreds(y: int)
    ensures y % 400 == 0 ==> y % 100 == 0
  {
    var d := 4 * (y / 400) - y / 100;
    assert y == 400 * (y / 400) + y % 400 && y == 100 * (y / 100) + y % 100;
    if y % 400 == 0 { assert 100 * d == y % 100; }
  }

  lemma OfFours(y: int)
    ensures y % 100 == 0 ==> y % 4 == 0
  {
    var d := 25 * (y / 100) - y / 4;
    assert y == 100 * (y / 100) + y % 100 && y == 4 * (y / 4) + y % 4;
    if y % 100 == 0 { assert 4 * d == y % 4; }
  }

  lemma {:induction false} YearCount(year: int)
    ensures DaysToYear(year) == (year - 1970) * 365 + LeapCount(year)
    decreases if year >= 1970 then year - 1970 else 1970 - year
  {
    if year > 1970 {
      YearCount(year - 1);
      LeapCountStep(year - 1);
    } else if year < 1970 {
      YearCount(year + 1);
      LeapCountStep(year);
    }
  }

  lemma CoveredIff(year: int)
    ensures FormulaDays(year) == DaysToYear(year) <==> Covered(year)
  {
    YearCount(year);
    CenturiesCount(year);
  }

  /** How many centuries the quarter-year count misses. */
  lemma CenturiesCount(year: int)
    ensures Quotient(year - 1969, 4) == LeapCount(year) <==> Covered(year)
  {
    var y := year - 1;
    if year > 2100 {
      assert y / 100 - y / 400 >= 16;
    } else if year > 1900 {
      assert y / 100 - y / 400 == 15;
    } else if year > 1800 {
      assert y / 100 - y / 400 == 14;
    } else {
      assert y / 100 - y / 400 <= 13;
    }
  }

  /** Years the formula gets wrong: the last leap day before the epoch, and the one that 2100 does not have. */
  lemma Uncovered()
    ensures DaysToYear(1968) == FormulaDays(1968) - 1 && DaysToYear(2101) == FormulaDays(2101) - 1
  {
    YearCount(1968);
    YearCount(2101);
  }

  // ---------- order ----------

  /** Lexicographic order of the fields. */
  predicate Earlier(a: Tm, b: Tm) {
    if a.year != b.year then a.year < b.year
    else if a.mon != b.mon then a.mon < b.mon
    else if a.mday != b.mday then a.mday < b.mday
    else if a.hour != b.hour then a.hour < b.hour
    else if a.min != b.min then a.min < b.min
    else a.sec < b.sec
  }

  lemma {:induction false} YearsApart(a: int, b: int)
    requires a < b
    ensures DaysToYear(a) + DaysInYear(a) <= DaysToYear(b)
    decreases b - a
  {
    if a + 1 < b {
      YearsApart(a + 1, b);
    }
  }

  lemma {:induction false} MonthsApart(year: int, a: nat, b: nat)
    requires a < b <= 12
    ensures DaysToMonth(year, a) + DaysInMonth(year, a) <= DaysToMonth(year, b)
  {
    if a + 1 < b { MonthsApart(year, a, b - 1); }
  }

  lemma MonthsMakeYear(year: int)
    ensures DaysToMonth(year, 12) == DaysInYear(year)
  {
    MonthTable(year, 11);
  }

  function DayOf(tm: Tm): int
    requires 0 <= tm.mon < 12
  {
    DaysToYear(tm.year) + DaysToMonth(tm.year, tm.mon) + tm.mday - 1
  }

  /** An earlier date is an earlier day, in every year. */
  lemma DaysApart(a: Tm, b: Tm)
    requires ValidDate(a) && ValidDate(b) && Earlier(a, b)
    ensures DayOf(a) < DayOf(b) || (a.year == b.year && a.mon == b.mon && a.mday == b.mday)
  {
    if a.year < b.year {
      YearsApart(a.year, b.year);
      MonthsMakeYear(a.year);
      MonthsApart(a.year, a.mon, 12);
      if b.mon > 0 { MonthsApart(b.year, 0, b.mon); }
    } else if a.mon < b.mon {
      MonthsApart(a.year, a.mon, b.mon);
    }
  }

  /** The calendar's seconds follow the order of the dates. */
  lemma SecondsIncrease(a: Tm, b: Tm)
    requires ValidDate(a) && ValidDate(b) && Earlier(a, b)
    ensures Seconds(a) < Seconds(b)
  {
    DaysApart(a, b);
  }

  /** Two dates the server compares: in covered years the results order as the dates do. */
  method Compare(a: Tm, b: Tm) returns (s: int, t: int)
    requires ValidDate(a) && ValidDate(b) && Covered(a.year) && Covered(b.year)
    ensures s == Seconds(a) && t == Seconds(b)
    ensures s < t <==> Earlier(a, b)
    ensures s == t <==> a == b
  {
    s := TmToTime(a);
    t := TmToTime(b);
    if Earlier(a, b) {
      SecondsIncrease(a, b);
    } else if a != b {
      SecondsIncrease(b, a);
    }
  }

  /** The date of the next second. */
  function Tick(tm: Tm): Tm {
    if tm.sec < 59 then tm.(sec := tm.sec + 1)
    else if tm.min < 59 then tm.(min := tm.min + 1, sec := 0)
    else if tm.hour < 23 then tm.(hour := tm.hour + 1, min := 0, sec := 0)
    else if tm.mday < DaysInMonth(tm.year, tm.mon) then tm.(mday := tm.mday + 1, hour := 0, min := 0, sec := 0)
    else if tm.mon < 11 then Tm(tm.year, tm.mon + 1, 1, 0, 0, 0)
    else Tm(tm.year + 1, 0, 1, 0, 0, 0)
  }

  /** The last second of a day is followed by the first of the next day. */
  lemma NextDay(tm: Tm)
    requires ValidDate(tm) && tm.hour == 23 && tm.min == 59 && tm.sec == 59
    ensures ValidDate(Tick(tm)) && DayOf(Tick(tm)) == DayOf(tm) + 1
    ensures Tick(tm).hour == Tick(tm).min == Tick(tm).sec == 0
  {
    if tm.mday == DaysInMonth(tm.year, tm.mon) && tm.mon == 11 {
      MonthsMakeYear(tm.year);
      assert DaysToMonth(tm.year, 12) == DaysToMonth(tm.year, 11) + DaysInMonth(tm.year, 11);
      NextYear(tm.year);
    }
  }

  lemma NextYear(year: int)
    ensures DaysToYear(year + 1) == DaysToYear(year) + DaysInYear(year)
  {
  }

  /** The clock and the calendar keep step: every second of every year adds one. */
  lemma TickIsOne(tm: Tm)
    requires ValidDate(tm)
    ensures ValidDate(Tick(tm)) && Seconds(Tick(tm)) == Seconds(tm) + 1
    ensures Seconds(Tm(1970, 0, 1, 0, 0, 0)) == 0
  {
    if tm.hour == 23 && tm.min == 59 && tm.sec == 59 { NextDay(tm); }
  }

  // ---------- the calendar by its numbers ----------

  /** The months have their lengths, and 2000 and 1996 are leap years where 1900 and 1999 are not. */
  lemma MonthLengths(year: int, mon: nat)
    requires mon < 12
    ensures DaysInMonth(year, mon)
      == [31, if Leap(year) then 29 else 28, 31, 30, 31, 30, 31, 31, 30, 31, 30, 31][mon]
    ensures Leap(2000) && Leap(1996) && !Leap(1900) && !Leap(1999)
  {
  }

  /** The date of RFC 7231, section 7.1.1.1: "Sun, 06 Nov 1994 08:49:37 GMT". */
  lemma KnownDate()
    ensures Seconds(Tm(1994, 10, 6, 8, 49, 37)) == 784111777
  {
    YearCount(1994);
    MonthTable(1994, 10);
    assert DaysToYear(1994) == 8766;
    assert DaysToMonth(1994, 10) == 304;
  }

  /** The leap day of 2000 and the day after it. */
  lemma LeapDay()
    ensures Seconds(Tm(2000, 1, 29, 0, 0, 0)) == 951782400 && Seconds(Tm(2000, 2, 1, 0, 0, 0)) == 951868800
  {
    YearCount(2000);
    MonthTable(2000, 1);
    MonthTable(2000, 2);
    assert DaysToYear(2000) == 10957;
    assert DaysToMonth(2000, 1) == 31 && DaysToMonth(2000, 2) == 60;
  }
}
