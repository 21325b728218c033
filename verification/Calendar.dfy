/**
 The calendar windows of internal/billing/budget.go: days, weeks that start on Sunday,
 and months, as half-open intervals of a time line counted in nanoseconds with days of
 a fixed length. Months are any partition of the days into consecutive blocks.
 */
module Calendar {

  const DAY: int := 86_400_000_000_000

  datatype Period = Daily | Weekly | Monthly | Other(name: string)

  /** `monthOf` numbers the month of a day, and `firstDay` gives the first day of a month. */
  datatype Months = Months(monthOf: int -> int, firstDay: int -> int) {
    ghost predicate Valid() {
      && (forall d :: firstDay(monthOf(d)) <= d < firstDay(monthOf(d) + 1))
      && (forall d, m :: firstDay(m) <= d < firstDay(m + 1) ==> monthOf(d) == m)
    }
  }

  function DayOf(t: int): int { t / DAY }

  /** Day 0 is 1 January 1970, a Thursday; Sunday is 0. */
  function Weekday(d: int): int { (d + 4) % 7 }

  /** The first day of the window that contains day `d`. */
  function StartDay(months: Months, p: Period, d: int): int {
    match p
    case Daily => d
    case Weekly => d - Weekday(d)
    case Monthly => months.firstDay(months.monthOf(d))
    case Other(_) => d
  }

  /** The first day after the window that contains day `d`. */
  function EndDay(months: Months, p: Period, d: int): int {
    match p
    case Daily => d + 1
    case Weekly => StartDay(months, p, d) + 7
    case Monthly => months.firstDay(months.monthOf(d) + 1)
    case Other(_) => d + 1
  }

  /** Any other period lasts a day from the moment it is looked at. */
  function WindowStart(months: Months, p: Period, t: int): int {
    if p.Other? then t else StartDay(months, p, DayOf(t)) * DAY
  }

  function WindowEnd(months: Months, p: Period, t: int): int {
    if p.Other? then t + DAY else EndDay(months, p, DayOf(t)) * DAY
  }

  predicate Calendrical(p: Period) {
    p in {Daily, Weekly, Monthly}
  }

  lemma DayBounds(t: int, d: int)
    ensures d <= DayOf(t) <==> d * DAY <= t
  {
  }

  predicate Midnight(t: int) {
    DayOf(t) * DAY == t
  }

  /** Every window contains the time it is computed for, and is made of whole days. */
  lemma WindowContains(months: Months, p: Period, t: int)
    requires months.Valid() && Calendrical(p)
    ensures WindowStart(months, p, t) <= t < WindowEnd(months, p, t)
    ensures Midnight(WindowStart(months, p, t)) && Midnight(WindowEnd(months, p, t))
  {
    var first, after := StartDay(months, p, DayOf(t)), EndDay(months, p, DayOf(t));
    DayInWindow(months, p, DayOf(t));
    DayBounds(t, first);
    DayBounds(t, after);
    hide StartDay, EndDay;
    assert DayOf(first * DAY) == first && DayOf(after * DAY) == after;
  }

  lemma DayInWindow(months: Months, p: Period, d: int)
    requires months.Valid() && Calendrical(p)
    ensures StartDay(months, p, d) <= d < EndDay(months, p, d)
  {
  }

  lemma WeekPartition(d: int, e: int)
    ensures d - Weekday(d) <= e < d - Weekday(d) + 7 <==> e - Weekday(e) == d - Weekday(d)
  {
  }

  lemma MonthPartition(months: Months, d: int, e: int)
    requires months.Valid()
    ensures StartDay(months, Monthly, d) <= e < EndDay(months, Monthly, d)
       <==> StartDay(months, Monthly, e) == StartDay(months, Monthly, d)
    ensures StartDay(months, Monthly, e) == StartDay(months, Monthly, d)
        ==> EndDay(months, Monthly, e) == EndDay(months, Monthly, d)
  {
  }

  /** Windows of one period partition time: two times either share a window or lie in disjoint ones. */
  lemma WindowPartition(months: Months, p: Period, t: int, u: int)
    requires months.Valid() && Calendrical(p)
    ensures WindowStart(months, p, t) <= u < WindowEnd(months, p, t)
       <==> WindowStart(months, p, u) == WindowStart(months, p, t)
    ensures WindowStart(months, p, u) == WindowStart(months, p, t)
        ==> WindowEnd(months, p, u) == WindowEnd(months, p, t)
  {
    var d, e := DayOf(t), DayOf(u);
    assert (StartDay(months, p, d) <= e < EndDay(months, p, d) <==> StartDay(months, p, e) == StartDay(months, p, d))
        && (StartDay(months, p, e) == StartDay(months, p, d) ==> EndDay(months, p, e) == EndDay(months, p, d)) by {
      match p
      case Daily =>
      case Weekly => WeekPartition(d, e);
      case Monthly => MonthPartition(months, d, e);
    }
    DayBounds(u, StartDay(months, p, d));
    DayBounds(u, EndDay(months, p, d));
  }

  /** A day never crosses a week or month boundary. */
  lemma DayInsideWindow(months: Months, p: Period, t: int)
    requires months.Valid() && Calendrical(p)
    ensures WindowStart(months, p, t) <= WindowStart(months, Daily, t)
    ensures WindowEnd(months, Daily, t) <= WindowEnd(months, p, t)
  {
  }
}
