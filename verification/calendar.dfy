/**
 * UTC calendar arithmetic on epoch milliseconds, following the Date algorithms of
 * ECMAScript (section 21.4.1 of ECMA-262: Day, TimeWithinDay, DayFromYear,
 * YearFromTime, MonthFromTime, DateFromTime, MakeDay, MakeDate) and the two
 * setters the histogram interval uses, setUTCMonth and setUTCFullYear.
 * Only integer arithmetic with constant divisors is involved; Dafny's `/` and `%`
 * with a positive divisor are floor division and a non-negative remainder, as the
 * standard's `floor` and `modulo` are.
 */
module Calendar {

  /** Day number (days since 1970-01-01) of the first day of year `y`. */
  function DayFromYear(y: int): int {
    365 * (y - 1970) + (y - 1969) / 4 - (y - 1901) / 100 + (y - 1601) / 400
  }

  /**
   * The Gregorian leap-year rule, reached through `depth` levels of delegation: every
   * depth gives the same answer (IsLeapDef), and the delegation keeps the verifier
   * from expanding the remainders wherever a year is mentioned.
   */
  predicate IsLeapAt(y: int, depth: nat)
    decreases y, depth
  {
    if depth > 0 then IsLeapAt(y, depth - 1) else y % 4 == 0 && (y % 100 != 0 || y % 400 == 0)
  }

  predicate IsLeap(y: int) {
    IsLeapAt(y, 2)
  }

  lemma IsLeapDef(y: int)
    ensures IsLeap(y) <==> y % 4 == 0 && (y % 100 != 0 || y % 400 == 0)
  {
    assert IsLeapAt(y, 2) == IsLeapAt(y, 0);
  }

  function DaysInYear(y: int): int {
    if IsLeap(y) then 366 else 365
  }

  /** How each of the three leap-year divisions of DayFromYear moves from one year to the next. */
  lemma QuadStep(y: int)
    ensures (y + 1 - 1969) / 4 == (y - 1969) / 4 + (if y % 4 == 0 then 1 else 0)
  {
    assert y - 1968 == y - 4 * 492;
  }

  lemma CenturyStep(y: int)
    ensures (y + 1 - 1901) / 100 == (y - 1901) / 100 + (if y % 100 == 0 then 1 else 0)
  {
    assert y - 1900 == y - 100 * 19;
  }

  lemma QuadCenturyStep(y: int)
    ensures (y + 1 - 1601) / 400 == (y - 1601) / 400 + (if y % 400 == 0 then 1 else 0)
  {
    assert y - 1600 == y - 400 * 4;
  }

  /** A multiple of 400 is a multiple of 100. */
  lemma MultipleOf400(y: int)
    requires y % 400 == 0
    ensures y % 100 == 0
  {
    var m := 4 * (y / 400);
    assert y == 100 * m;
    assert (100 * m) % 100 == 0;
  }

  /** A multiple of 100 is a multiple of 4. */
  lemma MultipleOf100(y: int)
    requires y % 100 == 0
    ensures y % 4 == 0
  {
    var m := 25 * (y / 100);
    assert y == 4 * m;
    assert (4 * m) % 4 == 0;
  }

  /** Consecutive years start DaysInYear apart. */
  lemma YearLength(y: int)
    ensures DayFromYear(y + 1) == DayFromYear(y) + DaysInYear(y)
  {
    IsLeapDef(y);
    if y % 400 == 0 { MultipleOf400(y); }
    if y % 100 == 0 { MultipleOf100(y); }
    QuadStep(y);
    CenturyStep(y);
    QuadCenturyStep(y);
    if y % 4 != 0 {
      assert DaysInYear(y) == 365;
    } else if y % 100 != 0 {
      assert DaysInYear(y) == 366;
    } else if y % 400 != 0 {
      assert DaysInYear(y) == 365;
    } else {
      assert DaysInYear(y) == 366;
    }
  }

  /** Four hundred Gregorian years are exactly 146097 days. */
  lemma Cycle(y: int)
    ensures DayFromYear(y + 400) == DayFromYear(y) + 146097
  {
    assert (y + 400 - 1969) / 4 == (y - 1969) / 4 + 100;
    assert (y + 400 - 1901) / 100 == (y - 1901) / 100 + 4;
    assert (y + 400 - 1601) / 400 == (y - 1601) / 400 + 1;
  }

  lemma {:induction false} Cycles(q: int)
    ensures DayFromYear(1970 + 400 * q) == 146097 * q
    decreases if q < 0 then -q else q
  {
    if q > 0 {
      Cycles(q - 1);
      Cycle(1970 + 400 * (q - 1));
    } else if q < 0 {
      Cycles(q + 1);
      Cycle(1970 + 400 * q);
    }
  }

  /** DayFromYear is strictly increasing. */
  lemma {:induction false} YearsIncrease(y1: int, y2: int)
    requires y1 < y2
    ensures DayFromYear(y1) + 365 <= DayFromYear(y2)
    decreases y2 - y1
  {
    YearLength(y2 - 1);
    if y1 < y2 - 1 {
      YearsIncrease(y1, y2 - 1);
    }
  }

  function FindYear(d: int, y: int): (r: int)
    requires DayFromYear(y) <= d
    ensures DayFromYear(r) <= d < DayFromYear(r + 1)
    decreases d - DayFromYear(y)
  {
    YearLength(y);
    if DayFromYear(y + 1) <= d then FindYear(d, y + 1) else y
  }

  /** YearFromTime, on a day number: the last year whose first day is not after day `d`. */
  function YearFromDay(d: int): (r: int)
    ensures DayFromYear(r) <= d < DayFromYear(r + 1)
  {
    Cycles(d / 146097);
    FindYear(d, 1970 + 400 * (d / 146097))
  }

  /** Only one year contains a given day. */
  lemma YearsUnique(d: int, y1: int, y2: int)
    requires DayFromYear(y1) <= d < DayFromYear(y1 + 1)
    requires DayFromYear(y2) <= d < DayFromYear(y2 + 1)
    ensures y1 == y2
  {
    if y1 < y2 {
      YearsIncrease(y1 + 1, y2 + 1);
      if y1 + 1 < y2 { YearsIncrease(y1 + 1, y2); }
    } else if y2 < y1 {
      YearsIncrease(y2 + 1, y1 + 1);
      if y2 + 1 < y1 { YearsIncrease(y2 + 1, y1); }
    }
  }

  /** Days of the year before the first day of month `m` (0 = January, 12 = the end of the year). */
  function CumDays(m: int, leap: bool): int
    requires 0 <= m <= 12
  {
    if m == 0 then 0
    else if m == 1 then 31
    else (153 * (m - 2) + 2) / 5 + 59 + (if leap then 1 else 0)
  }

  /** The number of days in month `m`. */
  function DaysInMonth(m: int, leap: bool): (n: int)
    requires 0 <= m < 12
    ensures 28 <= n <= 31
  {
    if m == 1 then (if leap then 29 else 28)
    else if m == 3 || m == 5 || m == 8 || m == 10 then 30
    else 31
  }

  /** Month `m` starts DaysInMonth after month `m - 1`. */
  lemma MonthLength(m: int, leap: bool)
    requires 0 <= m < 12
    ensures CumDays(m + 1, leap) == CumDays(m, leap) + DaysInMonth(m, leap)
  {
  }

  /** MonthFromTime, on a day within a year: the month whose days contain day `diy`. */
  function MonthOf(diy: int, leap: bool): (m: int)
    requires 0 <= diy < CumDays(12, leap)
    ensures 0 <= m < 12 && CumDays(m, leap) <= diy < CumDays(m + 1, leap)
  {
    var feb := if leap then 29 else 28;
    if diy < 31 then 0
    else if diy < 31 + feb then 1
    else (5 * (diy - 31 - feb) + 2) / 153 + 2
  }

  lemma MonthUnique(m: int, diy: int, leap: bool)
    requires 0 <= m < 12 && CumDays(m, leap) <= diy < CumDays(m + 1, leap)
    ensures MonthOf(diy, leap) == m
  {
  }

  /** The UTC fields of an instant: full year, month 0..11, date 1..31, ms within the day. */
  datatype Fields = Fields(year: int, month: int, date: int, time: int)

  predicate ValidFields(f: Fields) {
    && 0 <= f.month < 12
    && 1 <= f.date <= DaysInMonth(f.month, IsLeap(f.year))
    && 0 <= f.time < 86400000
  }

  /**
   * The day number of `date` (counted from 1) in month `m` of year `y`, reached through
   * `depth` levels of delegation: every depth gives the same day (DayOfDef), and the
   * delegation keeps the verifier from expanding the year and month arithmetic wherever
   * a day is mentioned; proofs about the calendar ask for it through DayOfDef.
   */
  function DayOfAt(y: int, m: int, date: int, depth: nat): int
    requires 0 <= m < 12
    decreases y, depth
  {
    if depth > 0 then DayOfAt(y, m, date, depth - 1)
    else DayFromYear(y) + CumDays(m, IsLeap(y)) + date - 1
  }

  function DayOf(y: int, m: int, date: int): int
    requires 0 <= m < 12
  {
    DayOfAt(y, m, date, 2)
  }

  lemma DayOfDef(y: int, m: int, date: int)
    requires 0 <= m < 12
    ensures DayOf(y, m, date) == DayFromYear(y) + CumDays(m, IsLeap(y)) + date - 1
  {
    assert DayOfAt(y, m, date, 2) == DayOfAt(y, m, date, 0);
  }

  /** MakeDay: the month is first normalised into the year, then the date is counted from its first day. */
  function MakeDay(year: int, month: int, date: int): int {
    DayOf(year + month / 12, month % 12, date)
  }

  function MakeDate(day: int, time: int): int {
    day * 86400000 + time
  }

  /** The instant of fields whose month is already in 0..11. */
  function Compose(f: Fields): int
    requires 0 <= f.month < 12
  {
    DayOf(f.year, f.month, f.date) * 86400000 + f.time
  }

  /** YearFromTime, MonthFromTime, DateFromTime and TimeWithinDay, computed step by step. */
  function ComputeFields(t: int): (f: Fields)
    ensures ValidFields(f) && Compose(f) == t
  {
    var d := t / 86400000;
    var y := YearFromDay(d);
    YearLength(y);
    var leap := IsLeap(y);
    var diy := d - DayFromYear(y);
    var m := MonthOf(diy, leap);
    var f := Fields(y, m, diy - CumDays(m, leap) + 1, t % 86400000);
    MonthLength(m, leap);
    DayOfDef(y, m, f.date);
    f
  }

  /** A day number and a time of day are recovered from the instant they make. */
  lemma DayAndTime(d1: int, t1: int, d2: int, t2: int)
    requires 0 <= t1 < 86400000 && 0 <= t2 < 86400000
    requires d1 * 86400000 + t1 == d2 * 86400000 + t2
    ensures d1 == d2 && t1 == t2
  {
  }

  /** The day of valid fields lies within their year, in their month. */
  lemma DayInYear(f: Fields)
    requires ValidFields(f)
    ensures DayFromYear(f.year) <= DayOf(f.year, f.month, f.date) < DayFromYear(f.year + 1)
    ensures var diy := DayOf(f.year, f.month, f.date) - DayFromYear(f.year);
      CumDays(f.month, IsLeap(f.year)) <= diy < CumDays(f.month + 1, IsLeap(f.year))
  {
    YearLength(f.year);
    MonthLength(f.month, IsLeap(f.year));
    DayOfDef(f.year, f.month, f.date);
  }

  /** Valid fields are recovered from their day number. */
  lemma DayOfInjective(f: Fields, g: Fields)
    requires ValidFields(f) && ValidFields(g)
    requires DayOf(f.year, f.month, f.date) == DayOf(g.year, g.month, g.date)
    ensures f.year == g.year && f.month == g.month && f.date == g.date
  {
    var d := DayOf(f.year, f.month, f.date);
    DayOfDef(f.year, f.month, f.date);
    DayOfDef(g.year, g.month, g.date);
    DayInYear(f);
    DayInYear(g);
    YearsUnique(d, f.year, g.year);
    var diy := d - DayFromYear(f.year);
    MonthUnique(f.month, diy, IsLeap(f.year));
    MonthUnique(g.month, diy, IsLeap(f.year));
  }

  /** Distinct valid fields denote distinct instants. */
  lemma ComposeInjective(f: Fields, g: Fields)
    requires ValidFields(f) && ValidFields(g) && Compose(f) == Compose(g)
    ensures f == g
  {
    DayAndTime(DayOf(f.year, f.month, f.date), f.time, DayOf(g.year, g.month, g.date), g.time);
    DayOfInjective(f, g);
  }

  /**
   * The fields of `t`, reached through `depth` levels of delegation. Every depth gives
   * the same fields (the only valid ones composing to `t`, by ComposeInjective); the
   * delegation keeps the verifier from expanding the computation wherever the fields
   * of an instant are mentioned, so that proofs work from this contract alone.
   */
  function FieldsAt(t: int, depth: nat): (f: Fields)
    ensures ValidFields(f) && Compose(f) == t
    decreases t, depth
  {
    if depth == 0 then ComputeFields(t) else FieldsAt(t, depth - 1)
  }

  /** getUTCFullYear, getUTCMonth, getUTCDate and the time within the day of instant `t`. */
  function FieldsOf(t: int): (f: Fields)
    ensures ValidFields(f) && Compose(f) == t
  {
    FieldsAt(t, 2)
  }

  /** Composing valid fields and reading them back gives the same fields. */
  lemma ComposeRoundTrip(f: Fields)
    requires ValidFields(f)
    ensures FieldsOf(Compose(f)) == f
  {
    ComposeInjective(FieldsOf(Compose(f)), f);
  }

  /** The year and month that follow year `y`, month `m`. */
  function NextMonth(y: int, m: int): (r: (int, int))
    requires 0 <= m < 12
    ensures 0 <= r.1 < 12
  {
    if m == 11 then (y + 1, 0) else (y, m + 1)
  }

  /** The year and month that precede year `y`, month `m`. */
  function PrevMonth(y: int, m: int): (r: (int, int))
    requires 0 <= m < 12
    ensures 0 <= r.1 < 12
  {
    if m == 0 then (y - 1, 11) else (y, m - 1)
  }

  /** MakeDay normalises month m + 1 into the following month. */
  lemma MakeDayNext(y: int, m: int, date: int)
    requires 0 <= m < 12
    ensures var n := NextMonth(y, m); MakeDay(y, m + 1, date) == DayOf(n.0, n.1, date)
  {
    if m == 11 {
      assert (m + 1) / 12 == 1 && (m + 1) % 12 == 0;
    } else {
      assert (m + 1) / 12 == 0 && (m + 1) % 12 == m + 1;
    }
  }

  /** MakeDay normalises month m - 1 into the preceding month. */
  lemma MakeDayPrev(y: int, m: int, date: int)
    requires 0 <= m < 12
    ensures var p := PrevMonth(y, m); MakeDay(y, m - 1, date) == DayOf(p.0, p.1, date)
  {
    if m == 0 {
      assert (m - 1) / 12 == -1 && (m - 1) % 12 == 11;
    } else {
      assert (m - 1) / 12 == 0 && (m - 1) % 12 == m - 1;
    }
  }

  /** A month in 0..11 is not normalised. */
  lemma MakeDayPlain(y: int, m: int, date: int)
    requires 0 <= m < 12
    ensures MakeDay(y, m, date) == DayOf(y, m, date)
  {
    assert m / 12 == 0 && m % 12 == m;
  }

  /** The same date one month later is the length of this month later. */
  lemma NextMonthDay(y: int, m: int, date: int)
    requires 0 <= m < 12
    ensures var n := NextMonth(y, m);
      DayOf(n.0, n.1, date) == DayOf(y, m, date) + DaysInMonth(m, IsLeap(y))
  {
    var n := NextMonth(y, m);
    YearLength(y);
    MonthLength(m, IsLeap(y));
    DayOfDef(y, m, date);
    DayOfDef(n.0, n.1, date);
  }

  /** The same date one month earlier is the length of the previous month earlier. */
  lemma PrevMonthDay(y: int, m: int, date: int)
    requires 0 <= m < 12
    ensures var p := PrevMonth(y, m);
      DayOf(p.0, p.1, date) == DayOf(y, m, date) - DaysInMonth(p.1, IsLeap(p.0))
  {
    var p := PrevMonth(y, m);
    YearLength(y - 1);
    MonthLength(p.1, IsLeap(p.0));
    DayOfDef(y, m, date);
    DayOfDef(p.0, p.1, date);
  }

  /** The same month and date one year later is between 364 and 367 days later. */
  lemma NextYearDay(y: int, m: int, date: int)
    requires 0 <= m < 12
    ensures DayOf(y, m, date) + 364 <= DayOf(y + 1, m, date) <= DayOf(y, m, date) + 367
  {
    YearLength(y);
    DayOfDef(y, m, date);
    DayOfDef(y + 1, m, date);
  }

  /** setUTCMonth(month) on instant `t`: keeps year, date and time of day, lets MakeDay normalise. */
  function SetUTCMonth(t: int, month: int): int {
    var f := FieldsOf(t);
    MakeDate(MakeDay(f.year, month, f.date), f.time)
  }

  /** setUTCFullYear(year) on instant `t`: keeps month, date and time of day. */
  function SetUTCFullYear(t: int, year: int): int {
    var f := FieldsOf(t);
    MakeDate(MakeDay(year, f.month, f.date), f.time)
  }
}
