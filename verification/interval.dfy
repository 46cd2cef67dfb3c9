/**
 * The histogram panel's Interval: a bucket width and the step of a timestamp one
 * bucket forward (`after`) or back (`before`). Month and year intervals step the
 * UTC calendar fields of the instant; every other unit adds a fixed number of
 * milliseconds.
 */
module Intervals {
  import opened Calendar

  /** 'M' and 'y' intervals have a width that depends on the instant; all other units are fixed. */
  datatype Kind = Month | Year | Fixed

  /** `text` is the interval string ("5m", "1M"), `ms` the width computed at construction. */
  datatype Interval = Interval(text: string, kind: Kind, ms: int)

  function KindOf(unitType: string): (k: Kind)
    ensures k == Year <==> unitType == "y"
    ensures k == Month <==> unitType == "M"
  {
    if unitType == "y" then Year else if unitType == "M" then Month else Fixed
  }

  /** Math.ceil on an exact real. */
  function Ceil(x: real): (n: int)
    ensures x <= n as real < x + 1.0
  {
    -((-x).Floor)
  }

  /**
   * The constructor, given what the unit parser reports for the interval string:
   * its unit type, the seconds in one unit and the unit count.
   */
  function NewInterval(text: string, unitType: string, sec: real, count: real): (iv: Interval)
    ensures iv.text == text && iv.kind == KindOf(unitType)
    ensures sec * 1000.0 * count <= iv.ms as real < sec * 1000.0 * count + 1.0
  {
    Interval(text, KindOf(unitType), Ceil(sec * 1000.0 * count))
  }

  /** A fixed interval steps forward; the calendar ones always do. */
  predicate Valid(iv: Interval) {
    iv.kind == Fixed ==> iv.ms > 0
  }

  /**
   * setUTCMonth(getUTCMonth() + delta) or setUTCFullYear(getUTCFullYear() + delta) on
   * `current`, through `depth` levels of delegation. Every depth gives the same instant
   * (CalendarGetUnfold); Get uses depth 2 (more than the verifier expands by itself) so that the calendar computation is expanded
   * only in the proofs that ask for it.
   */
  function CalendarGet(kind: Kind, current: int, delta: int, depth: nat): int
    decreases current, depth
  {
    if depth > 0 then CalendarGet(kind, current, delta, depth - 1)
    else if kind == Year then SetUTCFullYear(current, FieldsOf(current).year + delta)
    else SetUTCMonth(current, FieldsOf(current).month + delta)
  }

  /**
   * `get` with a step of `delta` buckets. For month and year intervals the step is
   * one calendar month or year per unit of delta, whatever the interval's count.
   */
  function Get(iv: Interval, current: int, delta: int): int {
    if iv.kind == Fixed then current + delta * iv.ms else CalendarGet(iv.kind, current, delta, 2)
  }

  function After(iv: Interval, t: int): int {
    Get(iv, t, 1)
  }

  function Before(iv: Interval, t: int): int {
    Get(iv, t, -1)
  }

  /** A calendar step sets the month (or year) field and keeps the date and time of day. */
  lemma CalendarGetUnfold(iv: Interval, t: int, delta: int)
    requires iv.kind != Fixed
    ensures var f := FieldsOf(t);
      Get(iv, t, delta) == if iv.kind == Year then MakeDate(MakeDay(f.year + delta, f.month, f.date), f.time)
                           else MakeDate(MakeDay(f.year, f.month + delta, f.date), f.time)
  {
    assert CalendarGet(iv.kind, t, delta, 2) == CalendarGet(iv.kind, t, delta, 0);
  }

  /** For a fixed unit, after and before move by exactly the width, and undo each other. */
  lemma FixedSteps(iv: Interval, t: int)
    requires iv.kind == Fixed
    ensures After(iv, t) == t + iv.ms && Before(iv, t) == t - iv.ms
    ensures After(iv, Before(iv, t)) == t && Before(iv, After(iv, t)) == t
  {
  }

  /** One month forward: the following month, same date and time of day (MakeDay may roll the date over). */
  lemma MonthAfter(iv: Interval, t: int)
    requires iv.kind == Month
    ensures var f := FieldsOf(t); var n := NextMonth(f.year, f.month);
      After(iv, t) == DayOf(n.0, n.1, f.date) * 86400000 + f.time
  {
    var f := FieldsOf(t);
    CalendarGetUnfold(iv, t, 1);
    MakeDayNext(f.year, f.month, f.date);
  }

  lemma MonthBefore(iv: Interval, t: int)
    requires iv.kind == Month
    ensures var f := FieldsOf(t); var p := PrevMonth(f.year, f.month);
      Before(iv, t) == DayOf(p.0, p.1, f.date) * 86400000 + f.time
  {
    var f := FieldsOf(t);
    CalendarGetUnfold(iv, t, -1);
    MakeDayPrev(f.year, f.month, f.date);
  }

  lemma YearAfter(iv: Interval, t: int)
    requires iv.kind == Year
    ensures var f := FieldsOf(t); After(iv, t) == DayOf(f.year + 1, f.month, f.date) * 86400000 + f.time
  {
    var f := FieldsOf(t);
    CalendarGetUnfold(iv, t, 1);
    MakeDayPlain(f.year + 1, f.month, f.date);
  }

  lemma YearBefore(iv: Interval, t: int)
    requires iv.kind == Year
    ensures var f := FieldsOf(t); Before(iv, t) == DayOf(f.year - 1, f.month, f.date) * 86400000 + f.time
  {
    var f := FieldsOf(t);
    CalendarGetUnfold(iv, t, -1);
    MakeDayPlain(f.year - 1, f.month, f.date);
  }

  /** Every step forward strictly increases the instant (so zero-filling loops end). */
  lemma AfterGrows(iv: Interval, t: int)
    requires Valid(iv)
    ensures After(iv, t) > t
  {
    if iv.kind != Fixed {
      var f := FieldsOf(t);
      if iv.kind == Month {
        MonthAfter(iv, t);
        NextMonthDay(f.year, f.month, f.date);
      } else {
        YearAfter(iv, t);
        NextYearDay(f.year, f.month, f.date);
      }
    }
  }

  /** Every step back strictly decreases the instant. */
  lemma BeforeShrinks(iv: Interval, t: int)
    requires Valid(iv)
    ensures Before(iv, t) < t
  {
    if iv.kind != Fixed {
      var f := FieldsOf(t);
      if iv.kind == Month {
        MonthBefore(iv, t);
        PrevMonthDay(f.year, f.month, f.date);
      } else {
        YearBefore(iv, t);
        NextYearDay(f.year - 1, f.month, f.date);
      }
    }
  }

  /** After a step whose target has fields `g`, the step back is the instant of fields `f`. */
  lemma MonthBack(iv: Interval, a: int, f: Fields)
    requires iv.kind == Month && 0 <= f.month < 12
    requires var n := NextMonth(f.year, f.month); FieldsOf(a) == Fields(n.0, n.1, f.date, f.time)
    ensures Before(iv, a) == DayOf(f.year, f.month, f.date) * 86400000 + f.time
  {
    MonthBefore(iv, a);
    var n := NextMonth(f.year, f.month);
    assert PrevMonth(n.0, n.1) == (f.year, f.month);
  }

  /** A year step back from valid fields lands on year `y`, the one before, same month, date and time. */
  lemma YearBackFrom(iv: Interval, g: Fields, y: int)
    requires iv.kind == Year && ValidFields(g) && y == g.year - 1
    ensures Before(iv, Compose(g)) == DayOf(y, g.month, g.date) * 86400000 + g.time
  {
    ComposeRoundTrip(g);
    YearBefore(iv, Compose(g));
  }

  /** The fields one month on, when the date exists there. */
  lemma MonthTarget(iv: Interval, t: int)
    requires iv.kind == Month
    ensures var f := FieldsOf(t); var n := NextMonth(f.year, f.month);
      After(iv, t) == Compose(Fields(n.0, n.1, f.date, f.time))
  {
    var f := FieldsOf(t);
    var n := NextMonth(f.year, f.month);
    MonthAfter(iv, t);
  }

  /** Every date but 29 February exists in every year. */
  lemma SameDateNextYear(f: Fields)
    requires ValidFields(f) && !(f.month == 1 && f.date == 29)
    ensures ValidFields(Fields(f.year + 1, f.month, f.date, f.time))
  {
  }

  /**
   * A month step is undone by the step back whenever the date exists in the next
   * month (setUTCMonth otherwise rolls the date over into the month after).
   */
  lemma MonthRoundTrip(iv: Interval, t: int)
    requires iv.kind == Month
    requires var f := FieldsOf(t); var n := NextMonth(f.year, f.month);
      f.date <= DaysInMonth(n.1, IsLeap(n.0))
    ensures Before(iv, After(iv, t)) == t
  {
    var f := FieldsOf(t);
    var n := NextMonth(f.year, f.month);
    MonthTarget(iv, t);
    ComposeRoundTrip(Fields(n.0, n.1, f.date, f.time));
    MonthBack(iv, After(iv, t), f);
  }

  /** A year step is undone by the step back except from 29 February. */
  lemma YearRoundTrip(iv: Interval, t: int)
    requires iv.kind == Year
    requires var f := FieldsOf(t); !(f.month == 1 && f.date == 29)
    ensures Before(iv, After(iv, t)) == t
  {
    var f := FieldsOf(t);
    var g := Fields(f.year + 1, f.month, f.date, f.time);
    YearAfter(iv, t);
    assert After(iv, t) == Compose(g);
    SameDateNextYear(f);
    YearBackFrom(iv, g, f.year);
    assert Before(iv, Compose(g)) == DayOf(f.year, f.month, f.date) * 86400000 + f.time;
  }

  /** `k` steps forward. */
  function Steps(iv: Interval, t: int, k: nat): int {
    if k == 0 then t else After(iv, Steps(iv, t, k - 1))
  }

  lemma {:induction false} FixedStepsN(iv: Interval, t: int, k: nat)
    requires iv.kind == Fixed
    ensures Steps(iv, t, k) == t + k * iv.ms
  {
    if k > 0 {
      FixedStepsN(iv, t, k - 1);
      assert (k - 1) * iv.ms + iv.ms == k * iv.ms;
    }
  }

  /** The month `k` months after month `m` of year `y`. */
  function MonthsLater(y: int, m: int, k: nat): (r: (int, int))
    requires 0 <= m < 12
    ensures 0 <= r.1 < 12
  {
    if k == 0 then (y, m) else var p := MonthsLater(y, m, k - 1); NextMonth(p.0, p.1)
  }

  /** k months after month `m` of year `y`, by whole years and the month that remains. */
  lemma {:induction false} MonthsLaterClosed(y: int, m: int, k: nat)
    requires 0 <= m < 12
    ensures MonthsLater(y, m, k) == (y + (m + k) / 12, (m + k) % 12)
  {
    if k > 0 {
      MonthsLaterClosed(y, m, k - 1);
      var q := (m + k - 1) / 12;
      var r := (m + k - 1) % 12;
      assert m + k - 1 == 12 * q + r;
      if r == 11 {
        assert m + k == 12 * (q + 1);
        assert (m + k) / 12 == q + 1 && (m + k) % 12 == 0;
      } else {
        assert m + k == 12 * q + r + 1;
        assert (m + k) / 12 == q && (m + k) % 12 == r + 1;
      }
    }
  }

  /** A month step from `k - 1` months after fields `f` with a date every month has reaches `k` months after. */
  lemma MonthStepFrom(iv: Interval, f: Fields, k: nat)
    requires iv.kind == Month && ValidFields(f) && f.date <= 28 && k > 0
    ensures var q := MonthsLater(f.year, f.month, k - 1); var p := MonthsLater(f.year, f.month, k);
      After(iv, Compose(Fields(q.0, q.1, f.date, f.time))) == Compose(Fields(p.0, p.1, f.date, f.time))
  {
    var q := MonthsLater(f.year, f.month, k - 1);
    var g := Fields(q.0, q.1, f.date, f.time);
    ComposeRoundTrip(g);
    MonthAfter(iv, Compose(g));
  }

  lemma {:induction false} MonthStepsFrom(iv: Interval, t: int, k: nat, f: Fields)
    requires iv.kind == Month && ValidFields(f) && f.date <= 28 && Compose(f) == t
    ensures var p := MonthsLater(f.year, f.month, k);
      Steps(iv, t, k) == Compose(Fields(p.0, p.1, f.date, f.time))
  {
    if k == 0 {
      assert MonthsLater(f.year, f.month, 0) == (f.year, f.month);
    } else {
      MonthStepsFrom(iv, t, k - 1, f);
      MonthStepFrom(iv, f, k);
    }
  }

  /** From a date that every month has, k month steps land k months later on the same date. */
  lemma MonthStepsN(iv: Interval, t: int, k: nat)
    requires iv.kind == Month
    requires FieldsOf(t).date <= 28
    ensures var f := FieldsOf(t); var p := MonthsLater(f.year, f.month, k);
      Steps(iv, t, k) == Compose(Fields(p.0, p.1, f.date, f.time))
  {
    MonthStepsFrom(iv, t, k, FieldsOf(t));
  }

  /** Every date but 29 February exists in every year. */
  lemma SameDateAnyYear(f: Fields, y: int)
    requires ValidFields(f) && !(f.month == 1 && f.date == 29)
    ensures ValidFields(Fields(y, f.month, f.date, f.time))
  {
  }

  /** A year step from the `n - 1`-th year after valid fields `f` (not 29 February) reaches the `n`-th. */
  lemma YearStepFrom(iv: Interval, f: Fields, n: nat)
    requires iv.kind == Year && n > 0 && ValidFields(f) && !(f.month == 1 && f.date == 29)
    ensures After(iv, Compose(Fields(f.year + (n - 1), f.month, f.date, f.time)))
      == Compose(Fields(f.year + n, f.month, f.date, f.time))
  {
    var g := Fields(f.year + (n - 1), f.month, f.date, f.time);
    SameDateAnyYear(f, g.year);
    ComposeRoundTrip(g);
    YearAfter(iv, Compose(g));
  }

  lemma {:induction false} YearStepsFrom(iv: Interval, t: int, n: nat, f: Fields)
    requires iv.kind == Year && ValidFields(f) && !(f.month == 1 && f.date == 29) && Compose(f) == t
    ensures Steps(iv, t, n) == Compose(Fields(f.year + n, f.month, f.date, f.time))
  {
    if n > 0 {
      YearStepsFrom(iv, t, n - 1, f);
      YearStepFrom(iv, f, n);
    }
  }

  /** Except from 29 February, n year steps land n years later on the same month, date and time. */
  lemma YearStepsN(iv: Interval, t: int, n: nat)
    requires iv.kind == Year
    requires !(FieldsOf(t).month == 1 && FieldsOf(t).date == 29)
    ensures var f := FieldsOf(t); Steps(iv, t, n) == Compose(Fields(f.year + n, f.month, f.date, f.time))
  {
    YearStepsFrom(iv, t, n, FieldsOf(t));
  }

  lemma MonthsLaterYears(y: int, m: int, n: nat)
    requires 0 <= m < 12
    ensures MonthsLater(y, m, 12 * n) == (y + n, m)
  {
    MonthsLaterClosed(y, m, 12 * n);
    assert m + 12 * n == 12 * n + m;
    assert (m + 12 * n) / 12 == n && (m + 12 * n) % 12 == m;
  }

  /** From a date every month has, 12 * n month steps equal n year steps. */
  lemma TwelveMonthsMakeAYear(months: Interval, years: Interval, t: int, n: nat)
    requires months.kind == Month && years.kind == Year
    requires FieldsOf(t).date <= 28
    ensures Steps(months, t, 12 * n) == Steps(years, t, n)
  {
    var f := FieldsOf(t);
    var m := 12 * n;
    var p := MonthsLater(f.year, f.month, m);
    assert p == (f.year + n, f.month) by {
      MonthsLaterYears(f.year, f.month, n);
    }
    assert Steps(months, t, m) == Compose(Fields(p.0, p.1, f.date, f.time)) by {
      MonthStepsFrom(months, t, m, f);
    }
    assert Fields(p.0, p.1, f.date, f.time) == Fields(f.year + n, f.month, f.date, f.time);
    assert Steps(years, t, n) == Compose(Fields(f.year + n, f.month, f.date, f.time)) by {
      YearStepsFrom(years, t, n, f);
    }
  }

  /** k steps are a first step and k - 1 more. */
  lemma {:induction false} StepsShift(iv: Interval, t: int, k: nat)
    requires k >= 1
    ensures Steps(iv, t, k) == Steps(iv, After(iv, t), k - 1)
  {
    if k > 1 {
      StepsShift(iv, t, k - 1);
    }
  }

  /**
   * A month step from a date the next month lacks rolls over into the month after it
   * (31 January lands on 2 or 3 March), and the step back then misses the start.
   */
  lemma MonthRollsOver(iv: Interval, t: int)
    requires iv.kind == Month
    requires var f := FieldsOf(t); var n := NextMonth(f.year, f.month);
      f.date > DaysInMonth(n.1, IsLeap(n.0))
    ensures var f := FieldsOf(t); var n := NextMonth(f.year, f.month); var n2 := NextMonth(n.0, n.1);
      After(iv, t) == Compose(Fields(n2.0, n2.1, f.date - DaysInMonth(n.1, IsLeap(n.0)), f.time))
    ensures Before(iv, After(iv, t)) != t
  {
    var f := FieldsOf(t);
    var n := NextMonth(f.year, f.month);
    var n2 := NextMonth(n.0, n.1);
    var date := f.date - DaysInMonth(n.1, IsLeap(n.0));
    var g := Fields(n2.0, n2.1, date, f.time);
    assert After(iv, t) == Compose(g) by {
      MonthAfter(iv, t);
      NextMonthDay(n.0, n.1, date);
      DayOfDef(n.0, n.1, date);
      DayOfDef(n.0, n.1, f.date);
    }
    ComposeRoundTrip(g);
    var h := Fields(n.0, n.1, date, f.time);
    MonthBack(iv, After(iv, t), h);
    if Before(iv, After(iv, t)) == t {
      ComposeInjective(f, h);
    }
  }

  /** The step back undoes a month step exactly when the date exists in the next month. */
  lemma MonthRoundTripIff(iv: Interval, t: int)
    requires iv.kind == Month
    ensures var f := FieldsOf(t); var n := NextMonth(f.year, f.month);
      Before(iv, After(iv, t)) == t <==> f.date <= DaysInMonth(n.1, IsLeap(n.0))
  {
    var f := FieldsOf(t);
    var n := NextMonth(f.year, f.month);
    if f.date <= DaysInMonth(n.1, IsLeap(n.0)) {
      MonthRoundTrip(iv, t);
    } else {
      MonthRollsOver(iv, t);
    }
  }

  lemma MonthsLaterFromMarch(y: int, n: nat)
    requires n >= 1
    ensures MonthsLater(y, 2, 12 * n - 1) == (y + n, 1)
  {
    MonthsLaterClosed(y, 2, 12 * n - 1);
    assert 2 + (12 * n - 1) == 12 * n + 1;
    assert (12 * n + 1) / 12 == n && (12 * n + 1) % 12 == 1;
  }

  /** A month step from 31 January lands in March on a date every month has. */
  lemma JanuaryToMarchStep(months: Interval, f: Fields)
    requires months.kind == Month && ValidFields(f) && f.month == 0 && f.date == 31
    ensures var g := Fields(f.year, 2, 31 - DaysInMonth(1, IsLeap(f.year)), f.time);
      ValidFields(g) && g.date <= 28 && After(months, Compose(f)) == Compose(g)
  {
    ComposeRoundTrip(f);
    assert NextMonth(f.year, 0) == (f.year, 1);
    assert NextMonth(f.year, 1) == (f.year, 2);
    MonthRollsOver(months, Compose(f));
  }

  /** JanuaryMonthSteps, from the fields of the start. */
  lemma JanuaryMonthStepsFrom(months: Interval, f: Fields, n: nat)
    requires months.kind == Month && ValidFields(f) && f.month == 0 && f.date == 31 && n >= 1
    ensures Steps(months, Compose(f), 12 * n)
      == Compose(Fields(f.year + n, 1, 31 - DaysInMonth(1, IsLeap(f.year)), f.time))
  {
    var g := Fields(f.year, 2, 31 - DaysInMonth(1, IsLeap(f.year)), f.time);
    var m := 12 * n;
    var k := m - 1;
    assert ValidFields(g) && g.date <= 28 && After(months, Compose(f)) == Compose(g) by {
      JanuaryToMarchStep(months, f);
    }
    var p := MonthsLater(g.year, g.month, k);
    assert p == (f.year + n, 1) by {
      MonthsLaterFromMarch(f.year, n);
    }
    assert Steps(months, Compose(g), k) == Compose(Fields(p.0, p.1, g.date, g.time)) by {
      MonthStepsFrom(months, Compose(g), k, g);
    }
    assert Steps(months, Compose(f), m) == Steps(months, Compose(g), k) by {
      StepsShift(months, Compose(f), m);
    }
    assert Fields(p.0, p.1, g.date, g.time) == Fields(f.year + n, 1, 31 - DaysInMonth(1, IsLeap(f.year)), f.time);
  }

  /** 12 * n month steps from 31 January land on 3 February (2 February after a leap year). */
  lemma JanuaryMonthSteps(months: Interval, t: int, n: nat)
    requires months.kind == Month && FieldsOf(t).month == 0 && FieldsOf(t).date == 31 && n >= 1
    ensures var f := FieldsOf(t);
      Steps(months, t, 12 * n) == Compose(Fields(f.year + n, 1, 31 - DaysInMonth(1, IsLeap(f.year)), f.time))
  {
    JanuaryMonthStepsFrom(months, FieldsOf(t), n);
  }

  /**
   * From 31 January, 12 * n month steps do not make n years: they land on 2 or 3
   * February, the year steps on 31 January.
   */
  lemma JanuaryThirtyFirst(months: Interval, years: Interval, t: int, n: nat)
    requires months.kind == Month && years.kind == Year
    requires FieldsOf(t).month == 0 && FieldsOf(t).date == 31 && n >= 1
    ensures Steps(months, t, 12 * n) != Steps(years, t, n)
  {
    var f := FieldsOf(t);
    var m := 12 * n;
    var feb := Fields(f.year + n, 1, 31 - DaysInMonth(1, IsLeap(f.year)), f.time);
    var jan := Fields(f.year + n, 0, 31, f.time);
    assert Steps(months, t, m) == Compose(feb) by {
      JanuaryMonthStepsFrom(months, f, n);
    }
    assert Steps(years, t, n) == Compose(jan) by {
      YearStepsFrom(years, t, n, f);
    }
    if Compose(feb) == Compose(jan) {
      ComposeInjective(feb, jan);
    }
  }
}
