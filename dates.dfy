/**
 * Calendar dates as the scheduling code uses them through Python's `datetime`:
 * a proleptic Gregorian (year, month, day), the ordinal day number that date
 * subtraction works on, the day after a date and the weekday of a date.
 */
module Dates {

  datatype Date = Date(year: int, month: int, day: int)

  predicate IsLeapYear(year: int) {
    year % 4 == 0 && (year % 100 != 0 || year % 400 == 0)
  }

  function DaysInMonth(year: int, month: int): (n: nat)
    requires 1 <= month <= 12
    ensures 28 <= n <= 31
    ensures n == 29 <==> month == 2 && IsLeapYear(year)
  {
    if month == 2 then (if IsLeapYear(year) then 29 else 28)
    else if month == 4 || month == 6 || month == 9 || month == 11 then 30
    else 31
  }

  /** A date that Python's `date` constructor accepts (the upper year bound aside). */
  predicate Valid(d: Date) {
    1 <= d.year && 1 <= d.month <= 12 && 1 <= d.day <= DaysInMonth(d.year, d.month)
  }

  /** Days in the years before `year`. */
  function DaysBeforeYear(year: int): int
    requires 1 <= year
  {
    var y := year - 1;
    y * 365 + y / 4 - y / 100 + y / 400
  }

  /** Days in the months of `year` before `month`. */
  function DaysBeforeMonth(year: int, month: int): int
    requires 1 <= month <= 12
  {
    var cumulative := [0, 31, 59, 90, 120, 151, 181, 212, 243, 273, 304, 334];
    cumulative[month - 1] + (if month > 2 && IsLeapYear(year) then 1 else 0)
  }

  /** The proleptic Gregorian ordinal: 1 January of year 1 is day 1 (`date.toordinal`). */
  function Ordinal(d: Date): int
    requires Valid(d)
  {
    DaysBeforeYear(d.year) + DaysBeforeMonth(d.year, d.month) + d.day
  }

  /** Monday is 0 and Sunday is 6 (`date.weekday`). */
  function Weekday(d: Date): (w: int)
    requires Valid(d)
    ensures 0 <= w < 7
  {
    (Ordinal(d) + 6) % 7
  }

  /** The date one day later (`d + timedelta(days=1)`). */
  function NextDay(d: Date): (r: Date)
    requires Valid(d)
    ensures Valid(r)
  {
    if d.day < DaysInMonth(d.year, d.month) then Date(d.year, d.month, d.day + 1)
    else if d.month < 12 then Date(d.year, d.month + 1, 1)
    else Date(d.year + 1, 1, 1)
  }

  /** Counting the multiples of 4, 100 and 400 up to y + 1 from those up to y. */
  lemma MultiplesStep(y: int)
    requires 0 <= y
    ensures (y + 1) / 4 == y / 4 + (if (y + 1) % 4 == 0 then 1 else 0)
    ensures (y + 1) / 100 == y / 100 + (if (y + 1) % 100 == 0 then 1 else 0)
    ensures (y + 1) / 400 == y / 400 + (if (y + 1) % 400 == 0 then 1 else 0)
  {
  }

  lemma YearLength(year: int)
    requires 1 <= year
    ensures DaysBeforeYear(year + 1) == DaysBeforeYear(year) + (if IsLeapYear(year) then 366 else 365)
  {
    var y := year - 1;
    MultiplesStep(y);
  }

  /** Moving to the next day advances the ordinal by exactly one. */
  lemma NextDayOrdinal(d: Date)
    requires Valid(d)
    ensures Ordinal(NextDay(d)) == Ordinal(d) + 1
  {
    if d.day == DaysInMonth(d.year, d.month) && d.month == 12 {
      YearLength(d.year);
    }
  }

  /** The `k` consecutive dates starting at `start` (`start + timedelta(days=i)` for i in range(k)). */
  function DatesFrom(start: Date, k: nat): (r: seq<Date>)
    requires Valid(start)
    ensures |r| == k
    decreases k
  {
    if k == 0 then [] else [start] + DatesFrom(NextDay(start), k - 1)
  }

  /** The i-th date of a run is valid and lies exactly i days after its start. */
  lemma {:induction false} DatesFromOrdinal(start: Date, k: nat, i: nat)
    requires Valid(start) && i < k
    ensures Valid(DatesFrom(start, k)[i])
    ensures Ordinal(DatesFrom(start, k)[i]) == Ordinal(start) + i
    decreases k
  {
    if i > 0 {
      NextDayOrdinal(start);
      DatesFromOrdinal(NextDay(start), k - 1, i - 1);
    }
  }

  /** How many days `range((end - start).days + 1)` visits: none when end precedes start. */
  function RangeLength(start: Date, end: Date): (n: nat)
    requires Valid(start) && Valid(end)
    ensures n == 0 <==> Ordinal(end) < Ordinal(start)
  {
    if Ordinal(end) < Ordinal(start) then 0 else Ordinal(end) - Ordinal(start) + 1
  }

  /** The inclusive range of dates from `start` to `end`. */
  function DateRange(start: Date, end: Date): seq<Date>
    requires Valid(start) && Valid(end)
  {
    DatesFrom(start, RangeLength(start, end))
  }

  /** An inclusive range holds every date whose ordinal lies between its ends, in order. */
  lemma DateRangeSpan(start: Date, end: Date, i: nat)
    requires Valid(start) && Valid(end)
    requires i < |DateRange(start, end)|
    ensures Valid(DateRange(start, end)[i])
    ensures Ordinal(DateRange(start, end)[i]) == Ordinal(start) + i <= Ordinal(end)
  {
    DatesFromOrdinal(start, RangeLength(start, end), i);
  }

  /**
   * Expands an inclusive date range by stepping one day at a time; the inner
   * loop shared by the closing-day, absence and term-assignment expansions.
   */
  method DaysOfRange(start: Date, end: Date) returns (days: seq<Date>)
    requires Valid(start) && Valid(end)
    ensures days == DateRange(start, end)
    ensures |days| == RangeLength(start, end)
  {
    var count := RangeLength(start, end);
    days := [];
    var current := start;
    var i := 0;
    while i < count
      invariant 0 <= i <= count
      invariant Valid(current)
      invariant days + DatesFrom(current, count - i) == DatesFrom(start, count)
    {
      days := days + [current];
      current := NextDay(current);
      i := i + 1;
    }
  }

  /** The day numbers of the dates that fall in `month` of `year` (a list comprehension with a filter). */
  function DaysInMonthOf(dates: seq<Date>, month: int, year: int): (r: seq<int>)
    ensures |r| <= |dates|
    ensures forall x :: x in r <==> exists d :: d in dates && d.month == month && d.year == year && d.day == x
    ensures |r| == |dates| <==> forall i :: 0 <= i < |dates| ==> dates[i].month == month && dates[i].year == year
  {
    if dates == [] then []
    else
      var rest := DaysInMonthOf(dates[1..], month, year);
      assert forall d :: d in dates <==> d == dates[0] || d in dates[1..];
      if dates[0].month == month && dates[0].year == year then [dates[0].day] + rest else rest
  }

  /** Every range of the list has valid ends. */
  predicate ValidRanges(rs: seq<(Date, Date)>)
  {
    forall i :: 0 <= i < |rs| ==> Valid(rs[i].0) && Valid(rs[i].1)
  }

  /** The inclusive ranges expanded one after the other, in list order. */
  function RangesDays(rs: seq<(Date, Date)>): seq<Date>
    requires ValidRanges(rs)
  {
    if rs == [] then []
    else RangesDays(rs[..|rs| - 1]) + DateRange(rs[|rs| - 1].0, rs[|rs| - 1].1)
  }

  /** Σ (end − start + 1) over the ranges, counting a backwards range as empty. */
  function RangesLength(rs: seq<(Date, Date)>): nat
    requires ValidRanges(rs)
  {
    if rs == [] then 0
    else RangesLength(rs[..|rs| - 1]) + RangeLength(rs[|rs| - 1].0, rs[|rs| - 1].1)
  }

  /** Expanding the ranges yields Σ (end − start + 1) days. */
  lemma {:induction false} RangesDaysLength(rs: seq<(Date, Date)>)
    requires ValidRanges(rs)
    ensures |RangesDays(rs)| == RangesLength(rs)
  {
    if rs != [] {
      RangesDaysLength(rs[..|rs| - 1]);
    }
  }

  /** Every expanded day is valid and lies within one of the ranges. */
  lemma {:induction false} RangesDaysWithin(rs: seq<(Date, Date)>, d: Date)
    requires ValidRanges(rs)
    requires d in RangesDays(rs)
    ensures Valid(d)
    ensures exists i :: 0 <= i < |rs| && Ordinal(rs[i].0) <= Ordinal(d) <= Ordinal(rs[i].1)
  {
    var front, last := rs[..|rs| - 1], rs[|rs| - 1];
    if d in RangesDays(front) {
      RangesDaysWithin(front, d);
      var i :| 0 <= i < |front| && Ordinal(front[i].0) <= Ordinal(d) <= Ordinal(front[i].1);
      assert rs[i] == front[i];
    } else {
      var r := DateRange(last.0, last.1);
      var k :| 0 <= k < |r| && r[k] == d;
      DateRangeSpan(last.0, last.1, k);
      assert rs[|rs| - 1] == last;
    }
  }
}
