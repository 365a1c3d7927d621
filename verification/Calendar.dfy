/** The proleptic Gregorian calendar of ECMA-262 (section 21.4.1): day numbers count from
    1 January 1970, months inside `MakeDay` count from 0 and may overflow, as may days. */
module Calendar {
  const MS_PER_DAY := 86_400_000

  predicate Leap(y: int) { y % 4 == 0 && (y % 100 != 0 || y % 400 == 0) }

  /** Dafny's `/` rounds down for a positive divisor, as the standard's floor does. */
  function DayFromYear(y: int): int {
    365 * (y - 1970) + (y - 1969) / 4 - (y - 1901) / 100 + (y - 1601) / 400
  }

  lemma YearLength(y: int)
    ensures DayFromYear(y + 1) == DayFromYear(y) + if Leap(y) then 366 else 365
  {
    Every4(y);
    Every100(y);
    Every400(y);
  }

  lemma Every4(y: int)
    ensures (y - 1968) / 4 == (y - 1969) / 4 + if y % 4 == 0 then 1 else 0
  {
  }

  lemma Hundreds(x: int, q: int, r: int)
    requires x == 100 * q + r && 0 <= r < 100
    ensures x / 100 == q && x % 100 == r
  {
  }

  lemma Every100(y: int)
    ensures (y - 1900) / 100 == (y - 1901) / 100 + if y % 100 == 0 then 1 else 0
    ensures y % 100 == 0 ==> y % 4 == 0
  {
    var x := y - 1901;
    NextHundred(x, x / 100, x % 100);
    Hundreds(y, (x + 1) / 100 + 19, (x + 1) % 100);
    if y % 100 == 0 { Fours(y, 25 * (y / 100)); }
  }

  lemma NextHundred(x: int, q: int, r: int)
    requires x == 100 * q + r && 0 <= r < 100
    ensures (x + 1) / 100 == q + (if r == 99 then 1 else 0) && (x + 1) % 100 == if r == 99 then 0 else r + 1
  {
    if r == 99 { Hundreds(x + 1, q + 1, 0); } else { Hundreds(x + 1, q, r + 1); }
  }

  lemma Fours(x: int, q: int)
    requires x == 4 * q
    ensures x % 4 == 0
  {
  }

  lemma FourHundreds(x: int, q: int, r: int)
    requires x == 400 * q + r && 0 <= r < 400
    ensures x / 400 == q && x % 400 == r
  {
  }

  lemma Every400(y: int)
    ensures (y - 1600) / 400 == (y - 1601) / 400 + if y % 400 == 0 then 1 else 0
    ensures y % 400 == 0 ==> y % 100 == 0
  {
    var q, r := (y - 1601) / 400, (y - 1601) % 400;
    assert y == 400 * q + r + 1601;
    if r == 399 {
      FourHundreds(y - 1600, q + 1, 0);
      FourHundreds(y, q + 5, 0);
      Hundreds(y, 4 * (q + 5), 0);
    } else {
      FourHundreds(y - 1600, q, r + 1);
      FourHundreds(y, q + 4, r + 1);
    }
  }

  lemma {:induction false} YearsAscend(y: int, y': int)
    requires y <= y'
    ensures DayFromYear(y) + 365 * (y' - y) <= DayFromYear(y')
    decreases y' - y
  {
    if y < y' {
      YearLength(y);
      YearsAscend(y + 1, y');
    }
  }

  /** The year a day falls in, found from `y` by stepping a year at a time. */
  function YearNear(day: int, y: int): (r: int)
    ensures DayFromYear(r) <= day < DayFromYear(r + 1)
    decreases day < DayFromYear(y), if day < DayFromYear(y) then DayFromYear(y) - day else day - DayFromYear(y)
  {
    YearLength(y); YearLength(y - 1);
    if day < DayFromYear(y) then YearNear(day, y - 1)
    else if DayFromYear(y + 1) <= day then YearNear(day, y + 1)
    else y
  }

  function YearFromDay(day: int): (r: int)
    ensures DayFromYear(r) <= day < DayFromYear(r + 1)
  {
    YearNear(day, 1970)
  }

  lemma YearIs(day: int, y: int)
    requires DayFromYear(y) <= day < DayFromYear(y + 1)
    ensures YearFromDay(day) == y
  {
    var r := YearFromDay(day);
    if r < y { YearsAscend(r + 1, y); }
    if y < r { YearsAscend(y + 1, r); }
  }

  /** Days of the year before its month `m`, the months counted from 0. */
  function DaysBefore(m: nat, leap: bool): nat
    requires m <= 12
  {
    var before :=
      if m == 0 then 0 else if m == 1 then 31 else if m == 2 then 59 else if m == 3 then 90
      else if m == 4 then 120 else if m == 5 then 151 else if m == 6 then 181 else if m == 7 then 212
      else if m == 8 then 243 else if m == 9 then 273 else if m == 10 then 304 else if m == 11 then 334
      else 365;
    before + if leap && m >= 2 then 1 else 0
  }

  function DaysInMonth(y: int, month: int): int
    requires 1 <= month <= 12
  {
    DaysBefore(month, Leap(y)) - DaysBefore(month - 1, Leap(y))
  }

  function MonthFrom(yearDay: nat, leap: bool, m: nat): (r: nat)
    requires m < 12 && DaysBefore(m, leap) <= yearDay < DaysBefore(12, leap)
    ensures r < 12 && DaysBefore(r, leap) <= yearDay < DaysBefore(r + 1, leap)
    decreases 12 - m
  {
    if yearDay < DaysBefore(m + 1, leap) then m else MonthFrom(yearDay, leap, m + 1)
  }

  datatype Civil = Civil(year: int, month: int, day: int) {
    predicate Valid() { 1 <= month <= 12 && 1 <= day <= DaysInMonth(year, month) }
    function InYear(): int
      requires 1 <= month <= 12
    {
      DaysBefore(month - 1, Leap(year)) + day - 1
    }
    function Ordinal(): int { 12 * year + month - 1 }
  }

  /** `MakeDay(year, month, date)` of section 21.4.1.28, the month counted from 0. */
  function MakeDay(y: int, m: int, d: int): int {
    DayFromYear(y + m / 12) + DaysBefore(m % 12, Leap(y + m / 12)) + d - 1
  }

  function ToDay(c: Civil): int { MakeDay(c.year, c.month - 1, c.day) }

  function DateInYear(y: int, yearDay: nat): Civil
    requires yearDay < DaysBefore(12, Leap(y))
  {
    var m := MonthFrom(yearDay, Leap(y), 0);
    Civil(y, m + 1, yearDay - DaysBefore(m, Leap(y)) + 1)
  }

  function FromDay(day: int): Civil {
    var y := YearFromDay(day);
    YearLength(y);
    DateInYear(y, day - DayFromYear(y))
  }

  lemma DateInYearIs(y: int, yearDay: nat)
    requires yearDay < DaysBefore(12, Leap(y))
    ensures var c := DateInYear(y, yearDay); c.year == y && c.Valid() && c.InYear() == yearDay
  {
    hide DaysBefore, MonthFrom, Leap;
    var m := MonthFrom(yearDay, Leap(y), 0) by { FromJanuary(y, yearDay); }
  }

  lemma FromJanuary(y: int, yearDay: nat)
    requires yearDay < DaysBefore(12, Leap(y))
    ensures DaysBefore(0, Leap(y)) <= yearDay
  {
  }

  lemma FromDayIs(day: int)
    ensures var c := FromDay(day); c.Valid() && c.InYear() == day - DayFromYear(c.year)
  {
    var y := YearFromDay(day);
    hide DayFromYear, Leap, DateInYear, YearFromDay;
    YearLength(y);
    DateInYearIs(y, day - DayFromYear(y));
  }

  lemma InYear(c: Civil)
    requires 1 <= c.month <= 12
    ensures ToDay(c) == DayFromYear(c.year) + c.InYear()
  {
    hide Leap, DayFromYear, DaysBefore;
    assert (c.month - 1) / 12 == 0 && (c.month - 1) % 12 == c.month - 1;
  }

  /** Every day number is one valid date ... */
  lemma DayRoundTrip(day: int)
    ensures FromDay(day).Valid() && ToDay(FromDay(day)) == day
  {
    hide FromDay, MakeDay;
    FromDayIs(day);
    InYear(FromDay(day));
  }

  /** ... and every valid date one day number. */
  lemma CivilRoundTrip(c: Civil)
    requires c.Valid()
    ensures FromDay(ToDay(c)) == c
  {
    hide FromDay, MakeDay, DayFromYear, Leap;
    InYear(c);
    FromDayIs(ToDay(c));
    SameDay(c, FromDay(ToDay(c)));
  }

  /** Day zero is the first of January 1970; the last February of the twentieth century had 29 days, that of the nineteenth 28. */
  lemma Epoch()
    ensures FromDay(0) == Civil(1970, 1, 1) && FromDay(11_016) == Civil(2000, 2, 29) && FromDay(11_017) == Civil(2000, 3, 1)
    ensures FromDay(-25_509) == Civil(1900, 2, 28) && FromDay(-25_508) == Civil(1900, 3, 1)
  {
    hide FromDay;
    Dated(Civil(1970, 1, 1), 0, 0);
    Dated(Civil(2000, 2, 29), 10_957, 31);
    Dated(Civil(2000, 3, 1), 10_957, 60);
    Dated(Civil(1900, 2, 28), -25_567, 31);
    Dated(Civil(1900, 3, 1), -25_567, 59);
  }

  lemma Dated(c: Civil, first: int, before: nat)
    requires c.Valid() && DayFromYear(c.year) == first && DaysBefore(c.month - 1, Leap(c.year)) == before
    ensures FromDay(first + before + c.day - 1) == c
  {
    hide FromDay, DayFromYear, DaysBefore, MakeDay, Leap;
    InYear(c);
    CivilRoundTrip(c);
  }

  lemma WithinYear(c: Civil)
    requires c.Valid()
    ensures 0 <= c.InYear() < DayFromYear(c.year + 1) - DayFromYear(c.year)
  {
    YearLength(c.year);
    hide DayFromYear, Leap;
    MonthsAscend(c.month, 12, Leap(c.year));
  }

  lemma SameDay(c: Civil, c': Civil)
    requires c.Valid() && c'.Valid()
    requires DayFromYear(c.year) + c.InYear() == DayFromYear(c'.year) + c'.InYear()
    ensures c == c'
  {
    hide DayFromYear, Leap;
    WithinYear(c);
    WithinYear(c');
    var day := DayFromYear(c.year) + c.InYear();
    YearIs(day, c.year);
    YearIs(day, c'.year);
    SameMonth(c, c');
    SameMonth(c', c);
  }

  lemma SameMonth(c: Civil, c': Civil)
    requires c.Valid() && c'.Valid() && c.year == c'.year && c.InYear() == c'.InYear()
    ensures c.month >= c'.month
  {
    if c.month < c'.month {
      MonthsAscend(c.month, c'.month - 1, Leap(c.year));
    }
  }

  lemma MonthsAscend(m: nat, m': nat, leap: bool)
    requires m <= m' <= 12
    ensures DaysBefore(m, leap) + 28 * (m' - m) <= DaysBefore(m', leap)
    decreases m' - m
  {
    if m < m' {
      assert DaysBefore(m, leap) + 28 <= DaysBefore(m + 1, leap);
      MonthsAscend(m + 1, m', leap);
    }
  }

  /** First day of the calendar month with the given ordinal (12 * year + month - 1). */
  function MonthStart(ordinal: int): int { MakeDay(0, ordinal, 1) }

  lemma MakeDayIs(y: int, m: int, d: int)
    ensures MakeDay(y, m, d) == MonthStart(12 * y + m) + d - 1
  {
    assert (12 * y + m) / 12 == y + m / 12 && (12 * y + m) % 12 == m % 12;
  }

  lemma MonthLength(ordinal: int)
    ensures MonthStart(ordinal + 1) == MonthStart(ordinal) + DaysInMonth(ordinal / 12, ordinal % 12 + 1)
    ensures 28 <= DaysInMonth(ordinal / 12, ordinal % 12 + 1) <= 31
  {
    var y, m := ordinal / 12, ordinal % 12;
    YearLength(y);
    if m == 11 {
      assert (ordinal + 1) / 12 == y + 1 && (ordinal + 1) % 12 == 0;
    } else {
      assert (ordinal + 1) / 12 == y && (ordinal + 1) % 12 == m + 1;
    }
  }

  lemma {:induction false} MonthStartsAscend(o: int, o': int)
    requires o <= o'
    ensures MonthStart(o) + 28 * (o' - o) <= MonthStart(o') <= MonthStart(o) + 31 * (o' - o)
    decreases o' - o
  {
    if o < o' {
      MonthLength(o);
      MonthStartsAscend(o + 1, o');
    }
  }

  lemma DayOfOrdinal(day: int)
    ensures var c := FromDay(day); day == MonthStart(c.Ordinal()) + c.day - 1 < MonthStart(c.Ordinal() + 1) && 1 <= c.day
  {
    var c := FromDay(day);
    hide FromDay, MakeDay, MonthStart;
    DayRoundTrip(day);
    MakeDayIs(c.year, c.month - 1, c.day);
    OrdinalParts(c);
    MonthLength(c.Ordinal());
  }

  lemma OrdinalParts(c: Civil)
    requires 1 <= c.month <= 12
    ensures c.Ordinal() / 12 == c.year && c.Ordinal() % 12 + 1 == c.month
  {
  }

  /** A day comes before the first of a month exactly when its own month does. */
  lemma OrdinalAgainst(day: int, ordinal: int)
    ensures FromDay(day).Ordinal() < ordinal <==> day < MonthStart(ordinal)
  {
    DayOfOrdinal(day);
    Against(FromDay(day).Ordinal(), day, ordinal);
  }

  lemma Against(o: int, day: int, ordinal: int)
    requires MonthStart(o) <= day < MonthStart(o + 1)
    ensures o < ordinal <==> day < MonthStart(ordinal)
  {
    if o < ordinal { MonthStartsAscend(o + 1, ordinal); } else { MonthStartsAscend(ordinal, o); }
  }

  /** Months partition the days. */
  lemma OrdinalExactly(day: int, ordinal: int)
    ensures FromDay(day).Ordinal() == ordinal <==> MonthStart(ordinal) <= day < MonthStart(ordinal + 1)
  {
    OrdinalAgainst(day, ordinal);
    OrdinalAgainst(day, ordinal + 1);
  }
}
