/**
 * Shift types and the derived information the scheduler keeps about each one
 * (`ShiftTypeInfo` in scripts/context.py): its id, its length in minutes,
 * and the days its workplace is closed.
 */
module ShiftTypes {
  import opened Dates

  /** A wall-clock time of day (`datetime.time`) to the second. */
  datatype TimeOfDay = TimeOfDay(hour: int, minute: int, second: int)

  predicate ValidTime(t: TimeOfDay)
  {
    0 <= t.hour < 24 && 0 <= t.minute < 60 && 0 <= t.second < 60
  }

  /** Seconds since midnight. */
  function Seconds(t: TimeOfDay): int
  {
    t.hour * 3600 + t.minute * 60 + t.second
  }

  /** A shift type as stored: its key, hours, label, workplace and daily demand. */
  datatype ShiftType = ShiftType(
    id: int,
    hourStart: TimeOfDay,
    hourEnd: TimeOfDay,
    name: string,
    workplace: int,
    demand: int)

  predicate ValidShiftType(st: ShiftType)
  {
    ValidTime(st.hourStart) && ValidTime(st.hourEnd)
  }

  /** The free shift that stands for a day off: midnight to midnight, labelled "-". */
  const FreeShiftName: string := "-"

  /** A shift type with the id it is known by and its length in minutes. */
  datatype ShiftTypeInfo = ShiftTypeInfo(shiftType: ShiftType, id: int, duration: int)

  /**
   * The minutes from `start` to the next `end`, wrapping past midnight:
   * the difference of the two times on one day, taken modulo a day
   * (`timedelta.seconds`), in whole minutes rounded down.
   */
  function DurationMinutes(start: TimeOfDay, end: TimeOfDay): (m: nat)
    requires ValidTime(start) && ValidTime(end)
    ensures m < 1440
    ensures 60 * m <= (Seconds(end) - Seconds(start)) % 86400 < 60 * m + 60
  {
    ((Seconds(end) - Seconds(start)) % 86400) / 60
  }

  /** `ShiftTypeInfo(st, index)`: the id is the given index and the duration is measured from the hours. */
  function NewShiftTypeInfo(st: ShiftType, index: int): (r: ShiftTypeInfo)
    requires ValidShiftType(st)
    ensures r.shiftType == st && r.id == index
    ensures 0 <= r.duration < 1440
    ensures 60 * r.duration <= (Seconds(st.hourEnd) - Seconds(st.hourStart)) % 86400 < 60 * r.duration + 60
  {
    ShiftTypeInfo(st, index, DurationMinutes(st.hourStart, st.hourEnd))
  }

  /** `get_duration_in_hours`: the duration in whole hours, rounded down. */
  function DurationHours(sti: ShiftTypeInfo): (h: int)
    ensures 60 * h <= sti.duration < 60 * h + 60
  {
    sti.duration / 60
  }

  /** A shift of whole minutes lasts (end − start) mod 1440 minutes. */
  lemma DurationWholeMinutes(start: TimeOfDay, end: TimeOfDay)
    requires ValidTime(start) && ValidTime(end)
    requires start.second == 0 && end.second == 0
    ensures DurationMinutes(start, end) == ((end.hour * 60 + end.minute) - (start.hour * 60 + start.minute)) % 1440
  {
    var x := (end.hour * 60 + end.minute) - (start.hour * 60 + start.minute);
    assert Seconds(end) - Seconds(start) == 60 * x;
    WholeMinutesModDay(x);
  }

  /** x minutes taken modulo a day, counted in seconds. */
  lemma WholeMinutesModDay(x: int)
    ensures (60 * x) % 86400 == 60 * (x % 1440)
  {
    var q, r := x / 1440, x % 1440;
    assert x == 1440 * q + r;
    assert 60 * x == 86400 * q + 60 * r;
    assert 0 <= 60 * r < 86400;
  }

  /** A shift that ends when it starts, like the free shift, lasts no time. */
  lemma DurationOfEqualTimes(t: TimeOfDay)
    requires ValidTime(t)
    ensures DurationMinutes(t, t) == 0
  {
  }

  /** A day shift 06:00–14:00 and a night shift 22:00–06:00 both last 480 minutes, that is 8 hours. */
  lemma EightHourShifts(st: ShiftType, index: int)
    requires ValidShiftType(st)
    requires (st.hourStart, st.hourEnd) == (TimeOfDay(6, 0, 0), TimeOfDay(14, 0, 0)) ||
             (st.hourStart, st.hourEnd) == (TimeOfDay(22, 0, 0), TimeOfDay(6, 0, 0))
    ensures NewShiftTypeInfo(st, index).duration == 480
    ensures DurationHours(NewShiftTypeInfo(st, index)) == 8
  {
    DurationWholeMinutes(st.hourStart, st.hourEnd);
  }

  /** A closing of a workplace over an inclusive range of dates. */
  datatype Closing = Closing(workplace: int, start: Date, end: Date)

  predicate ValidClosings(closings: seq<Closing>)
  {
    forall i :: 0 <= i < |closings| ==> Valid(closings[i].start) && Valid(closings[i].end)
  }

  /** The closings as (start, end) ranges. */
  function ClosingRanges(closings: seq<Closing>): (rs: seq<(Date, Date)>)
    requires ValidClosings(closings)
    ensures |rs| == |closings| && ValidRanges(rs)
  {
    seq(|closings|, i requires 0 <= i < |closings| => (closings[i].start, closings[i].end))
  }

  /**
   * `prepare_closing_days`: every day of every closing, closing by closing and
   * day by day.
   */
  method PrepareClosingDays(closings: seq<Closing>) returns (cd: seq<Date>)
    requires ValidClosings(closings)
    ensures cd == RangesDays(ClosingRanges(closings))
    ensures |cd| == RangesLength(ClosingRanges(closings))
    ensures forall d :: d in cd ==>
      Valid(d) && exists i :: 0 <= i < |closings| && Ordinal(closings[i].start) <= Ordinal(d) <= Ordinal(closings[i].end)
  {
    var rs := ClosingRanges(closings);
    cd := [];
    var i := 0;
    while i < |closings|
      invariant 0 <= i <= |closings|
      invariant cd == RangesDays(rs[..i])
    {
      var days := DaysOfRange(closings[i].start, closings[i].end);
      assert rs[..i + 1][..i] == rs[..i];
      cd := cd + days;
      i := i + 1;
    }
    assert rs[..i] == rs;
    RangesDaysLength(rs);
    forall d | d in cd
      ensures Valid(d)
      ensures exists i :: 0 <= i < |closings| && Ordinal(closings[i].start) <= Ordinal(d) <= Ordinal(closings[i].end)
    {
      RangesDaysWithin(rs, d);
    }
  }
}
