/**
 * The scheduling context (`Context` in scripts/context.py): everything the
 * solver is given about a month, derived from the employees, the shift types
 * and the calendar before the solver runs.
 */
module SchedulingContext {
  import opened Wrappers
  import opened Dates
  import opened Helpers
  import opened Sorting
  import opened ShiftTypes
  import opened Employees

  /** The exceptions the construction can raise. */
  datatype ContextError = IndexError | StopIteration | ZeroDivisionError

  predicate ValidShiftTypes(st: seq<ShiftType>)
  {
    forall i :: 0 <= i < |st| ==> ValidShiftType(st[i])
  }

  predicate ValidInfos(infos: seq<ShiftTypeInfo>)
  {
    forall i :: 0 <= i < |infos| ==> ValidShiftType(infos[i].shiftType)
  }

  /** `[ShiftTypeInfo(s, s.pk) for s in st]` */
  function ShiftTypeInfos(st: seq<ShiftType>): (infos: seq<ShiftTypeInfo>)
    requires ValidShiftTypes(st)
    ensures |infos| == |st| && ValidInfos(infos)
    ensures forall i :: 0 <= i < |st| ==> infos[i] == NewShiftTypeInfo(st[i], st[i].id)
  {
    seq(|st|, i requires 0 <= i < |st| => NewShiftTypeInfo(st[i], st[i].id))
  }

  /** Seven copies, one per weekday, of the demands of every shift type after the free one. */
  function WeeklyCoverDemands(infos: seq<ShiftTypeInfo>): (r: seq<seq<int>>)
    ensures |r| == 7
    ensures forall d :: 0 <= d < 7 ==> |r[d]| + 1 == |infos| || (|infos| == 0 && r[d] == [])
    ensures forall d, s :: 0 <= d < 7 && 0 <= s < |r[d]| ==> r[d][s] == infos[s + 1].shiftType.demand
  {
    var row := if |infos| == 0 then [] else seq(|infos| - 1, s requires 0 <= s < |infos| - 1 => infos[s + 1].shiftType.demand);
    seq(7, d => row)
  }

  // ---------------------------------------------------------------------------
  // Illegal transitions

  /** A forbidden change from one shift type on a day to another on the next day, with its penalty. */
  datatype Transition = Transition(from: int, to: int, penalty: int)

  /**
   * Minutes, rounded down, from the end of shift a on one day to the start of
   * shift b on the next day.
   */
  function TransitionGap(a: ShiftTypeInfo, b: ShiftTypeInfo): int
  {
    (86400 + Seconds(b.shiftType.hourStart) - (Seconds(a.shiftType.hourStart) + 60 * a.duration)) / 60
  }

  /** Less than eleven hours of rest between the two shifts. */
  predicate IllegalTransition(a: ShiftTypeInfo, b: ShiftTypeInfo)
  {
    TransitionGap(a, b) < 11 * 60
  }

  /** For shifts that start on the minute, the gap is 1440 + start_b − (start_a + duration_a). */
  lemma TransitionGapInMinutes(a: ShiftTypeInfo, b: ShiftTypeInfo)
    requires a.shiftType.hourStart.second == 0 && b.shiftType.hourStart.second == 0
    ensures TransitionGap(a, b) ==
      1440 + (b.shiftType.hourStart.hour * 60 + b.shiftType.hourStart.minute)
      - (a.shiftType.hourStart.hour * 60 + a.shiftType.hourStart.minute + a.duration)
  {
    var x := 1440 + (b.shiftType.hourStart.hour * 60 + b.shiftType.hourStart.minute)
      - (a.shiftType.hourStart.hour * 60 + a.shiftType.hourStart.minute + a.duration);
    assert 86400 + Seconds(b.shiftType.hourStart) - (Seconds(a.shiftType.hourStart) + 60 * a.duration) == 60 * x;
  }

  /** The transitions out of shift i into shifts 1..m−1 other than i itself. */
  function TransitionsFrom(infos: seq<ShiftTypeInfo>, i: nat, m: nat): seq<Transition>
    requires i < |infos| && m <= |infos|
  {
    if m <= 1 then []
    else
      var j := m - 1;
      TransitionsFrom(infos, i, j) +
      (if j != i && IllegalTransition(infos[i], infos[j]) then [Transition(infos[i].id, infos[j].id, 0)] else [])
  }

  /** The transitions out of shifts 1..k−1, shift by shift. */
  function TransitionsUpTo(infos: seq<ShiftTypeInfo>, k: nat): seq<Transition>
    requires k <= |infos|
  {
    if k <= 1 then [] else TransitionsUpTo(infos, k - 1) + TransitionsFrom(infos, k - 1, |infos|)
  }

  /** The free shift at index 0 is skipped, and so is every pair of a shift with itself. */
  predicate IsIllegalPair(infos: seq<ShiftTypeInfo>, i: int, j: int)
  {
    1 <= i < |infos| && 1 <= j < |infos| && i != j && IllegalTransition(infos[i], infos[j])
  }

  lemma {:induction false} TransitionsFromMember(infos: seq<ShiftTypeInfo>, i: nat, m: nat, t: Transition)
    requires 1 <= i < |infos| && m <= |infos|
    ensures t in TransitionsFrom(infos, i, m) <==>
      exists j :: 1 <= j < m && IsIllegalPair(infos, i, j) && t == Transition(infos[i].id, infos[j].id, 0)
  {
    if m > 1 {
      TransitionsFromMember(infos, i, m - 1, t);
    }
  }

  lemma {:induction false} TransitionsUpToMember(infos: seq<ShiftTypeInfo>, k: nat, t: Transition)
    requires k <= |infos|
    ensures t in TransitionsUpTo(infos, k) <==>
      exists i, j :: 1 <= i < k && IsIllegalPair(infos, i, j) && t == Transition(infos[i].id, infos[j].id, 0)
  {
    if k > 1 {
      var prefix, row := TransitionsUpTo(infos, k - 1), TransitionsFrom(infos, k - 1, |infos|);
      assert TransitionsUpTo(infos, k) == prefix + row;
      TransitionsUpToMember(infos, k - 1, t);
      TransitionsFromMember(infos, k - 1, |infos|, t);
      if t in row {
        var j :| 1 <= j < |infos| && IsIllegalPair(infos, k - 1, j) && t == Transition(infos[k - 1].id, infos[j].id, 0);
        assert 1 <= k - 1 < k && IsIllegalPair(infos, k - 1, j) && t == Transition(infos[k - 1].id, infos[j].id, 0);
      }
      if exists i, j :: 1 <= i < k && IsIllegalPair(infos, i, j) && t == Transition(infos[i].id, infos[j].id, 0) {
        var i, j :| 1 <= i < k && IsIllegalPair(infos, i, j) && t == Transition(infos[i].id, infos[j].id, 0);
        if i == k - 1 {
          assert 1 <= j < |infos| && IsIllegalPair(infos, k - 1, j) && t == Transition(infos[k - 1].id, infos[j].id, 0);
        } else {
          assert 1 <= i < k - 1 && IsIllegalPair(infos, i, j) && t == Transition(infos[i].id, infos[j].id, 0);
        }
      }
    }
  }

  /** Membership in the whole list of transitions, pair by pair. */
  lemma TransitionsMember(infos: seq<ShiftTypeInfo>)
    ensures forall t :: t in TransitionsUpTo(infos, |infos|) <==>
      exists i, j :: IsIllegalPair(infos, i, j) && t == Transition(infos[i].id, infos[j].id, 0)
  {
    forall t
      ensures t in TransitionsUpTo(infos, |infos|) <==>
        exists i, j :: IsIllegalPair(infos, i, j) && t == Transition(infos[i].id, infos[j].id, 0)
    {
      TransitionsUpToMember(infos, |infos|, t);
    }
  }

  /**
   * `find_illegal_transitions`: every ordered pair of distinct shifts after
   * the free one whose rest gap is under eleven hours, in loop order, with
   * penalty 0.
   */
  method FindIllegalTransitions(infos: seq<ShiftTypeInfo>) returns (it: seq<Transition>)
    ensures it == TransitionsUpTo(infos, |infos|)
    ensures forall t :: t in it <==>
      exists i, j :: IsIllegalPair(infos, i, j) && t == Transition(infos[i].id, infos[j].id, 0)
  {
    TransitionsMember(infos);
    it := [];
    if |infos| == 0 {
      return;
    }
    var i := 1;
    while i < |infos|
      invariant 1 <= i <= |infos|
      invariant it == TransitionsUpTo(infos, i)
    {
      var row := IllegalFrom(infos, i);
      it := it + row;
      i := i + 1;
    }
  }

  /** The inner loop of `find_illegal_transitions`: the transitions out of shift i, in order. */
  method IllegalFrom(infos: seq<ShiftTypeInfo>, i: nat) returns (row: seq<Transition>)
    requires 1 <= i < |infos|
    ensures row == TransitionsFrom(infos, i, |infos|)
  {
    var j := 1;
    row := [];
    while j < |infos|
      invariant 1 <= j <= |infos|
      invariant row == TransitionsFrom(infos, i, j)
    {
      if i != j {
        var gap := (86400 + Seconds(infos[j].shiftType.hourStart) - (Seconds(infos[i].shiftType.hourStart) + 60 * infos[i].duration)) / 60;
        if gap < 11 * 60 {
          row := row + [Transition(infos[i].id, infos[j].id, 0)];
        }
      }
      j := j + 1;
    }
  }

  /** With distinct ids, the free shift at index 0 is never part of an illegal transition. */
  lemma FreeShiftNotInTransitions(infos: seq<ShiftTypeInfo>, t: Transition)
    requires |infos| > 0
    requires forall p, q :: 0 <= p < q < |infos| ==> infos[p].id != infos[q].id
    requires t in TransitionsUpTo(infos, |infos|)
    ensures t.from != infos[0].id && t.to != infos[0].id && t.penalty == 0
  {
    TransitionsUpToMember(infos, |infos|, t);
  }

  // ---------------------------------------------------------------------------
  // Overnight shifts

  /** A run-length rule: (shift, hard_min, soft_min, min_cost, soft_max, hard_max, max_cost). */
  datatype SequenceRule = SequenceRule(shift: int, hardMin: int, softMin: int, minCost: int, softMax: int, hardMax: int, maxCost: int)

  /** Two or three nights in a row; one or four allowed at a cost. */
  function NightSequenceRule(id: int): SequenceRule
  {
    SequenceRule(id, 1, 2, 20, 3, 4, 5)
  }

  /** At least one night a week (at a cost), at most four. */
  function NightWeeklyRule(id: int): SequenceRule
  {
    SequenceRule(id, 0, 1, 2, 3, 4, 0)
  }

  /** A shift ends overnight when its end hour is earlier than its start hour. */
  predicate IsOvernight(st: ShiftType)
  {
    st.hourEnd.hour < st.hourStart.hour
  }

  /** An overnight shift runs past midnight: its start plus its duration reaches into the next day. */
  lemma OvernightRunsPastMidnight(st: ShiftType, index: int)
    requires ValidShiftType(st) && IsOvernight(st)
    ensures Seconds(st.hourStart) + 60 * NewShiftTypeInfo(st, index).duration + 60 > 86400 + Seconds(st.hourEnd)
  {
    assert Seconds(st.hourEnd) < Seconds(st.hourStart);
    assert (Seconds(st.hourEnd) - Seconds(st.hourStart)) % 86400 == 86400 + Seconds(st.hourEnd) - Seconds(st.hourStart);
  }

  /** The ids of the overnight shifts, in list order. */
  function OvernightIds(infos: seq<ShiftTypeInfo>): seq<int>
  {
    if infos == [] then []
    else
      var st := infos[|infos| - 1].shiftType;
      OvernightIds(infos[..|infos| - 1]) + (if IsOvernight(st) then [st.id] else [])
  }

  lemma {:induction false} OvernightIdsMember(infos: seq<ShiftTypeInfo>, id: int)
    ensures id in OvernightIds(infos) <==>
      exists i :: 0 <= i < |infos| && IsOvernight(infos[i].shiftType) && infos[i].shiftType.id == id
  {
    if infos != [] {
      var front := infos[..|infos| - 1];
      OvernightIdsMember(front, id);
      assert forall i :: 0 <= i < |front| ==> front[i] == infos[i];
    }
  }

  /**
   * `find_overnight_shifts`: one sequence rule and one weekly rule per
   * overnight shift, the free shift included, in the same order.
   */
  method FindOvernightShifts(infos: seq<ShiftTypeInfo>) returns (sc: seq<SequenceRule>, wsc: seq<SequenceRule>)
    ensures |sc| == |wsc| == |OvernightIds(infos)|
    ensures forall k :: 0 <= k < |sc| ==>
      sc[k] == NightSequenceRule(OvernightIds(infos)[k]) && wsc[k] == NightWeeklyRule(OvernightIds(infos)[k])
  {
    sc, wsc := [], [];
    var i := 0;
    while i < |infos|
      invariant 0 <= i <= |infos|
      invariant |sc| == |wsc| == |OvernightIds(infos[..i])|
      invariant forall k :: 0 <= k < |sc| ==>
        sc[k] == NightSequenceRule(OvernightIds(infos[..i])[k]) && wsc[k] == NightWeeklyRule(OvernightIds(infos[..i])[k])
    {
      assert infos[..i + 1][..i] == infos[..i];
      var start := infos[i].shiftType.hourStart.hour;
      var end := infos[i].shiftType.hourEnd.hour;
      if end < start {
        sc := sc + [NightSequenceRule(infos[i].shiftType.id)];
        wsc := wsc + [NightWeeklyRule(infos[i].shiftType.id)];
      }
      i := i + 1;
    }
    assert infos[..i] == infos;
  }

  // ---------------------------------------------------------------------------
  // Total work time

  /** How many of the days fall on weekday d (`sum([x[1] == d for x in days])`). */
  function CountWeekday(days: seq<DayEntry>, d: int): nat
  {
    if days == [] then 0
    else CountWeekday(days[..|days| - 1], d) + (if days[|days| - 1].1 == d then 1 else 0)
  }

  /** Σ_{d < e} CountWeekday(days, d) */
  function CountWeekdaysBelow(days: seq<DayEntry>, e: nat): nat
  {
    if e == 0 then 0 else CountWeekdaysBelow(days, e - 1) + CountWeekday(days, e - 1)
  }

  /** Σ duration over shift types 1..s (the first s after the free one), in minutes. */
  function DurationSum(infos: seq<ShiftTypeInfo>, s: nat): int
    requires s < |infos| || s == 0
  {
    if s == 0 then 0 else DurationSum(infos, s - 1) + infos[s].duration
  }

  /** Σ duration over every shift type after the free one. */
  function ShiftMinutes(infos: seq<ShiftTypeInfo>): int
  {
    if |infos| == 0 then 0 else DurationSum(infos, |infos| - 1)
  }

  lemma {:induction false} CountWeekdaysSnoc(days: seq<DayEntry>, x: DayEntry, e: nat)
    ensures CountWeekdaysBelow(days + [x], e) == CountWeekdaysBelow(days, e) + (if 0 <= x.1 < e then 1 else 0)
  {
    assert (days + [x])[..|days|] == days;
    if e > 0 {
      CountWeekdaysSnoc(days, x, e - 1);
    }
  }

  lemma {:induction false} CountWeekdaysNone(e: nat)
    ensures CountWeekdaysBelow([], e) == 0
  {
    if e > 0 {
      CountWeekdaysNone(e - 1);
    }
  }

  lemma Distribute(a: int, b: int, c: int)
    ensures (a + b) * c == a * c + b * c
  {
  }

  /** Days whose weekdays all lie in 0..6 are counted once each across the seven weekdays. */
  lemma {:induction false} CountWeekdaysAll(days: seq<DayEntry>)
    requires forall i :: 0 <= i < |days| ==> 0 <= days[i].1 < 7
    ensures CountWeekdaysBelow(days, 7) == |days|
  {
    if days == [] {
      CountWeekdaysNone(7);
    } else {
      var front := days[..|days| - 1];
      CountWeekdaysAll(front);
      CountWeekdaysSnoc(front, days[|days| - 1], 7);
      assert front + [days[|days| - 1]] == days;
    }
  }

  /** The inner loop of `calculate_total_work_time`: one weekday's count times each shift's minutes, added up. */
  method WeekdayMinutes(count: nat, demandsRow: seq<int>, infos: seq<ShiftTypeInfo>) returns (minutes: int)
    requires |demandsRow| + 1 == |infos| || (|infos| == 0 && demandsRow == [])
    ensures minutes == count * ShiftMinutes(infos)
  {
    minutes := 0;
    var s := 0;
    while s < |demandsRow|
      invariant 0 <= s <= |demandsRow|
      invariant minutes == count * DurationSum(infos, s)
    {
      Distribute(DurationSum(infos, s), infos[s + 1].duration, count);
      minutes := minutes + count * infos[s + 1].duration;
      s := s + 1;
    }
  }

  /**
   * `calculate_total_work_time`: for each weekday, the number of days of the
   * billing weeks on that weekday times the length of every shift after the
   * free one, in minutes, divided down to hours. The comparison of a shift
   * with the string "-" in the inner loop is between values of different
   * types and never holds, so it has no counterpart here.
   */
  method CalculateTotalWorkTime(infos: seq<ShiftTypeInfo>, billingWeeks: seq<seq<DayEntry>>) returns (hours: int)
    ensures hours == (CountWeekdaysBelow(Flatten(billingWeeks), 7) * ShiftMinutes(infos)) / 60
  {
    var demands := WeeklyCoverDemands(infos);
    var days := Flatten(billingWeeks);
    var counts: seq<nat> := [];
    var d := 0;
    while d < |demands|
      invariant 0 <= d <= |demands|
      invariant |counts| == d
      invariant forall k :: 0 <= k < d ==> counts[k] == CountWeekday(days, k)
    {
      counts := counts + [CountWeekday(days, d)];
      d := d + 1;
    }
    var totalMinutes := 0;
    d := 0;
    while d < |demands|
      invariant 0 <= d <= |demands|
      invariant totalMinutes == CountWeekdaysBelow(days, d) * ShiftMinutes(infos)
    {
      var dayMinutes := WeekdayMinutes(counts[d], demands[d], infos);
      Distribute(CountWeekdaysBelow(days, d), CountWeekday(days, d), ShiftMinutes(infos));
      totalMinutes := totalMinutes + dayMinutes;
      d := d + 1;
    }
    hours := totalMinutes / 60;
  }

  /**
   * Over a whole month the total work time is (days in month × Σ durations of
   * the shifts after the free one) div 60; demand does not enter it.
   */
  lemma TotalWorkTimeOfMonth(infos: seq<ShiftTypeInfo>, year: int, month: int)
    requires 1 <= year && 1 <= month <= 12
    ensures (CountWeekdaysBelow(Flatten(GetMonthByBillingWeeks(year, month)), 7) * ShiftMinutes(infos)) / 60 ==
      (DaysInMonth(year, month) * ShiftMinutes(infos)) / 60
  {
    BillingWeeksShape(year, month);
    MonthDaysInOrder(year, month);
    CountWeekdaysAll(Flatten(GetMonthByBillingWeeks(year, month)));
  }

  // ---------------------------------------------------------------------------
  // Maximum work time

  /** `sum(x in absent for x in [d[0] for d in week])`: how many days of the week are absent days. */
  function WeekAbsences(week: seq<DayEntry>, absent: seq<int>): (n: nat)
    ensures n <= |week|
  {
    if week == [] then 0
    else WeekAbsences(week[..|week| - 1], absent) + (if week[|week| - 1].0 in absent then 1 else 0)
  }

  /**
   * The hours one billing week allows: eight a day, less eight for each absent
   * day when more than one day is missed, otherwise less one free day in a
   * week of more than three days, and never below zero.
   */
  function WeekAllowance(week: seq<DayEntry>, absent: seq<int>): int
  {
    var a := WeekAbsences(week, absent);
    var h := 8 * |week| - (if a > 1 then a * 8 else if |week| > 3 then 8 else 0);
    if h > 0 then h else 0
  }

  /** The allowances of the weeks added up. */
  function Allowance(weeks: seq<seq<DayEntry>>, absent: seq<int>): int
  {
    if weeks == [] then 0 else Allowance(weeks[..|weeks| - 1], absent) + WeekAllowance(weeks[|weeks| - 1], absent)
  }

  /**
   * A week allows at most eight hours a day; with two or more absent days it
   * allows eight hours for each day present; with at most one absent day it
   * allows all but one day when it has more than three days, and every day
   * otherwise, so a single absence costs nothing.
   */
  lemma WeekAllowanceCases(week: seq<DayEntry>, absent: seq<int>)
    ensures var a, h := WeekAbsences(week, absent), WeekAllowance(week, absent);
      0 <= h <= 8 * |week| &&
      (a > 1 ==> h == 8 * (|week| - a)) &&
      (a <= 1 && |week| > 3 ==> h == 8 * (|week| - 1)) &&
      (a <= 1 && |week| <= 3 ==> h == 8 * |week|)
  {
  }

  lemma {:induction false} WeekAbsencesNone(week: seq<DayEntry>)
    ensures WeekAbsences(week, []) == 0
  {
    if week != [] {
      WeekAbsencesNone(week[..|week| - 1]);
    }
  }

  /** Absences never raise the allowance of a week. */
  lemma WeekAllowanceAtMost(week: seq<DayEntry>, absent: seq<int>)
    ensures WeekAllowance(week, absent) <= WeekAllowance(week, [])
  {
    WeekAbsencesNone(week);
    WeekAllowanceCases(week, absent);
  }

  /** Absences never raise the allowance of a run of weeks. */
  lemma {:induction false} AllowanceAtMost(weeks: seq<seq<DayEntry>>, absent: seq<int>)
    ensures Allowance(weeks, absent) <= Allowance(weeks, [])
  {
    if weeks != [] {
      AllowanceAtMost(weeks[..|weeks| - 1], absent);
      WeekAllowanceAtMost(weeks[|weeks| - 1], absent);
    }
  }

  /** Full seven-day weeks without absences allow 48 hours each: six days of eight hours. */
  lemma {:induction false} AllowanceOfFullWeeks(weeks: seq<seq<DayEntry>>)
    requires forall i :: 0 <= i < |weeks| ==> |weeks[i]| == 7
    ensures Allowance(weeks, []) == 48 * |weeks|
  {
    if weeks != [] {
      AllowanceOfFullWeeks(weeks[..|weeks| - 1]);
      WeekAbsencesNone(weeks[|weeks| - 1]);
    }
  }

  /** Seven days in every block but the last. */
  lemma {:induction false} SumLengthsOfBlocks(blocks: seq<seq<DayEntry>>)
    requires |blocks| >= 1
    requires forall i :: 0 <= i < |blocks| - 1 ==> |blocks[i]| == 7
    ensures SumLengths(blocks) == 7 * (|blocks| - 1) + |blocks[|blocks| - 1]|
  {
    if |blocks| > 1 {
      SumLengthsOfBlocks(blocks[1..]);
    }
  }

  /**
   * Blocks of seven days but for a last one of one to seven, 28 to 31 days in
   * all: without absences they allow eight hours for every day but four.
   */
  lemma AllowanceOfBlocks(blocks: seq<seq<DayEntry>>)
    requires |blocks| >= 1
    requires forall i :: 0 <= i < |blocks| - 1 ==> |blocks[i]| == 7
    requires 1 <= |blocks[|blocks| - 1]| <= 7
    requires 28 <= SumLengths(blocks) <= 31
    ensures Allowance(blocks, []) == 8 * (SumLengths(blocks) - 4)
  {
    SumLengthsOfBlocks(blocks);
    var front, last := blocks[..|blocks| - 1], blocks[|blocks| - 1];
    AllowanceOfFullWeeks(front);
    WeekAbsencesNone(last);
  }

  /**
   * Without absences a month allows eight hours for every day but four: one
   * free day in each of its four full billing weeks, none in the short
   * remainder of at most three days.
   */
  lemma MonthAllowanceWithoutAbsences(year: int, month: int)
    requires 1 <= year && 1 <= month <= 12
    ensures Allowance(GetMonthByBillingWeeks(year, month), []) == 8 * (DaysInMonth(year, month) - 4)
  {
    var blocks := GetMonthByBillingWeeks(year, month);
    BillingWeeksShape(year, month);
    MonthDaysInOrder(year, month);
    FlattenLength(blocks);
    AllowanceOfBlocks(blocks);
  }

  /** How many times e occurs in es. */
  function Occurrences(es: seq<EmployeeInfo>, e: EmployeeInfo): nat
  {
    if es == [] then 0 else Occurrences(es[..|es| - 1], e) + (if es[|es| - 1] == e then 1 else 0)
  }

  /** The hours the given billing weeks allow one employee, given the employee's absent days in that month. */
  function EmployeeAllowance(e: EmployeeInfo, weeks: seq<seq<DayEntry>>, year: int, month: int): int
  {
    Allowance(weeks, DaysInMonthOf(e.absentDays, month, year))
  }

  /** Every listed employee's current maximum work time. */
  function Snapshot(es: seq<EmployeeInfo>): map<EmployeeInfo, int>
    reads es
  {
    map e | e in es :: e.maxWorkTime
  }

  /**
   * The running total `mwt` of `calculate_max_work_time`: after employee k it
   * adds that employee's updated value, which is its value on entry plus its
   * month's allowance once for each time it has appeared so far.
   */
  function RunningTotal(es: seq<EmployeeInfo>, base: map<EmployeeInfo, int>, weeks: seq<seq<DayEntry>>, year: int, month: int): int
    requires forall e :: e in es ==> e in base
  {
    if es == [] then 0
    else
      var last := es[|es| - 1];
      assert forall e :: e in es[..|es| - 1] ==> e in es;
      RunningTotal(es[..|es| - 1], base, weeks, year, month) + base[last] + Occurrences(es, last) * EmployeeAllowance(last, weeks, year, month)
  }

  /**
   * Taking employee k into the prefix counts that employee once more and no
   * other, and adds its updated value to the running total.
   */
  lemma TallyStep(es: seq<EmployeeInfo>, k: nat, base: map<EmployeeInfo, int>, weeks: seq<seq<DayEntry>>, year: int, month: int)
    requires k < |es|
    requires forall e :: e in es ==> e in base
    ensures forall e :: (Occurrences(es[..k + 1], e) * EmployeeAllowance(e, weeks, year, month) ==
      Occurrences(es[..k], e) * EmployeeAllowance(e, weeks, year, month) + (if es[k] == e then EmployeeAllowance(e, weeks, year, month) else 0))
    ensures RunningTotal(es[..k + 1], base, weeks, year, month) ==
      RunningTotal(es[..k], base, weeks, year, month) + base[es[k]] + Occurrences(es[..k + 1], es[k]) * EmployeeAllowance(es[k], weeks, year, month)
  {
    assert es[..k + 1][..k] == es[..k];
    forall e
      ensures Occurrences(es[..k + 1], e) * EmployeeAllowance(e, weeks, year, month) ==
        Occurrences(es[..k], e) * EmployeeAllowance(e, weeks, year, month) + (if es[k] == e then EmployeeAllowance(e, weeks, year, month) else 0)
    {
      Distribute(Occurrences(es[..k], e), 1, EmployeeAllowance(e, weeks, year, month));
    }
  }

  /** The loop over the billing weeks in `calculate_max_work_time`: adds each week's allowance to the employee. */
  method AddWeeklyAllowances(ei: EmployeeInfo, weeks: seq<seq<DayEntry>>, absent: seq<int>)
    modifies ei
    ensures ei.maxWorkTime == old(ei.maxWorkTime) + Allowance(weeks, absent)
  {
    var w := 0;
    while w < |weeks|
      invariant 0 <= w <= |weeks|
      invariant ei.maxWorkTime == old(ei.maxWorkTime) + Allowance(weeks[..w], absent)
    {
      var week := weeks[w];
      var numAbsences := WeekAbsences(week, absent);
      var maxWeekWorkTime := 8 * |week|;
      if numAbsences > 1 {
        maxWeekWorkTime := maxWeekWorkTime - numAbsences * 8;
      } else if |week| > 3 {
        maxWeekWorkTime := maxWeekWorkTime - 8;
      }
      assert weeks[..w + 1][..w] == weeks[..w];
      ei.maxWorkTime := ei.maxWorkTime + if maxWeekWorkTime > 0 then maxWeekWorkTime else 0;
      w := w + 1;
    }
    assert weeks[..w] == weeks;
  }

  /**
   * `calculate_max_work_time`: adds each employee's allowance for every
   * billing week of the month to the employee's maximum work time (as often
   * as the employee is listed) and returns the running total of the updated
   * values.
   */
  method CalculateMaxWorkTime(employees: seq<EmployeeInfo>, year: int, month: int) returns (mwt: int)
    requires 1 <= year && 1 <= month <= 12
    modifies employees
    ensures var weeks := GetMonthByBillingWeeks(year, month);
      forall e :: e in employees ==>
        e.maxWorkTime == old(e.maxWorkTime) + Occurrences(employees, e) * EmployeeAllowance(e, weeks, year, month)
    ensures mwt == RunningTotal(employees, old(Snapshot(employees)), GetMonthByBillingWeeks(year, month), year, month)
  {
    var weeks := GetMonthByBillingWeeks(year, month);
    mwt := AddAllowances(employees, weeks, year, month);
  }

  /** The loop over the employees in `calculate_max_work_time`, for the month's billing weeks. */
  method AddAllowances(employees: seq<EmployeeInfo>, weeks: seq<seq<DayEntry>>, year: int, month: int) returns (mwt: int)
    modifies employees
    ensures forall e :: e in employees ==>
      e.maxWorkTime == old(e.maxWorkTime) + Occurrences(employees, e) * EmployeeAllowance(e, weeks, year, month)
    ensures mwt == RunningTotal(employees, old(Snapshot(employees)), weeks, year, month)
  {
    ghost var base := Snapshot(employees);
    mwt := 0;
    var k := 0;
    while k < |employees|
      invariant 0 <= k <= |employees|
      invariant forall e :: e in employees ==>
        e.maxWorkTime == base[e] + Occurrences(employees[..k], e) * EmployeeAllowance(e, weeks, year, month)
      invariant mwt == RunningTotal(employees[..k], base, weeks, year, month)
    {
      var ei := employees[k];
      var absent := DaysInMonthOf(ei.absentDays, month, year);
      AddWeeklyAllowances(ei, weeks, absent);
      TallyStep(employees, k, base, weeks, year, month);
      mwt := mwt + ei.maxWorkTime;
      k := k + 1;
    }
    assert employees[..k] == employees;
  }

  /** No employee is listed twice. */
  predicate Distinct(es: seq<EmployeeInfo>)
  {
    forall i, j :: 0 <= i < j < |es| ==> es[i] != es[j]
  }

  /** Σ EmployeeAllowance over the employees. */
  function SumAllowances(es: seq<EmployeeInfo>, weeks: seq<seq<DayEntry>>, year: int, month: int): int
  {
    if es == [] then 0 else SumAllowances(es[..|es| - 1], weeks, year, month) + EmployeeAllowance(es[|es| - 1], weeks, year, month)
  }

  lemma {:induction false} OccurrencesAbsent(es: seq<EmployeeInfo>, e: EmployeeInfo)
    requires e !in es
    ensures Occurrences(es, e) == 0
  {
    if es != [] {
      OccurrencesAbsent(es[..|es| - 1], e);
    }
  }

  /**
   * With every employee listed once and starting from zero, each employee
   * ends with exactly the month's allowance and the total is the sum of the
   * allowances.
   */
  lemma {:induction false} DistinctTotals(es: seq<EmployeeInfo>, base: map<EmployeeInfo, int>, weeks: seq<seq<DayEntry>>, year: int, month: int)
    requires Distinct(es)
    requires forall e :: e in es ==> e in base && base[e] == 0
    ensures forall e :: e in es ==> Occurrences(es, e) == 1
    ensures RunningTotal(es, base, weeks, year, month) == SumAllowances(es, weeks, year, month)
  {
    if es != [] {
      var front, last := es[..|es| - 1], es[|es| - 1];
      assert forall e :: e in front ==> e in es;
      DistinctTotals(front, base, weeks, year, month);
      assert last !in front;
      OccurrencesAbsent(front, last);
    }
  }

  // ---------------------------------------------------------------------------
  // Requests

  /** A request (employee, shift, day, weight); a negative weight means the employee wants the shift. */
  datatype Request = Request(employee: int, shift: int, day: int, weight: int)

  /** Python's `s[i]` on a string: negative indices count from the end; out of range is an IndexError. */
  function CharAt(s: string, i: int): (r: Option<char>)
    ensures r.Some? <==> -|s| <= i < |s|
    ensures 0 <= i < |s| ==> r == Some(s[i])
  {
    if 0 <= i < |s| then Some(s[i])
    else if -|s| <= i < 0 then Some(s[|s| + i])
    else None
  }

  /**
   * `next(st.get().id for st in shift_types if pref.shift_type == st.get())`:
   * the id of the first listed shift type with the preferred key (model
   * instances compare by key), or nothing, which raises StopIteration.
   */
  function ShiftIdOf(infos: seq<ShiftTypeInfo>, key: int): (r: Option<int>)
    ensures r.Some? <==> exists i :: 0 <= i < |infos| && infos[i].shiftType.id == key
    ensures r.Some? ==> r.value == key
  {
    if infos == [] then None
    else if infos[0].shiftType.id == key then Some(infos[0].shiftType.id)
    else
      var r := ShiftIdOf(infos[1..], key);
      assert forall i :: 1 <= i < |infos| ==> infos[i] == infos[1..][i - 1];
      r
  }

  /** What one day adds for one preference: a request when the preference is active on that weekday. */
  function DayRequest(pk: int, pref: Preference, infos: seq<ShiftTypeInfo>, d: DayEntry): Result<seq<Request>, ContextError>
  {
    match CharAt(pref.activeDays, d.1)
    case None => Failure(IndexError)
    case Some(c) =>
      if c != '1' then Success([])
      else
        match ShiftIdOf(infos, pref.shiftType)
        case None => Failure(StopIteration)
        case Some(id) => Success([Request(pk, id, d.0, -1)])
  }

  function DayStep(pk: int, pref: Preference, infos: seq<ShiftTypeInfo>): DayEntry -> Result<seq<Request>, ContextError>
  {
    d => DayRequest(pk, pref, infos, d)
  }

  /** The requests of one preference over the days, in order. */
  function PreferenceRequests(pk: int, pref: Preference, infos: seq<ShiftTypeInfo>, days: seq<DayEntry>): Result<seq<Request>, ContextError>
  {
    Collect(days, DayStep(pk, pref, infos))
  }

  function PreferenceStep(pk: int, infos: seq<ShiftTypeInfo>, days: seq<DayEntry>): Preference -> Result<seq<Request>, ContextError>
  {
    pref => PreferenceRequests(pk, pref, infos, days)
  }

  /** The requests of one employee, preference by preference. */
  function EmployeeRequests(e: EmployeeInfo, infos: seq<ShiftTypeInfo>, days: seq<DayEntry>): Result<seq<Request>, ContextError>
  {
    Collect(e.preferences, PreferenceStep(e.employee.pk, infos, days))
  }

  function EmployeeStep(infos: seq<ShiftTypeInfo>, days: seq<DayEntry>): EmployeeInfo -> Result<seq<Request>, ContextError>
  {
    (e: EmployeeInfo) => EmployeeRequests(e, infos, days)
  }

  /** The requests of all employees, employee by employee; the first error raised ends the construction. */
  function Requests(es: seq<EmployeeInfo>, infos: seq<ShiftTypeInfo>, days: seq<DayEntry>): Result<seq<Request>, ContextError>
  {
    Collect(es, EmployeeStep(infos, days))
  }

  /**
   * `prepare_requests`: for every employee, preference and day of the billing
   * weeks (taken in order), a request with weight −1 for the preferred shift
   * when the preference's character for that weekday is "1".
   */
  method PrepareRequests(employees: seq<EmployeeInfo>, infos: seq<ShiftTypeInfo>, billingWeeks: seq<seq<DayEntry>>)
    returns (r: Result<seq<Request>, ContextError>)
    ensures r == Requests(employees, infos, Flatten(billingWeeks))
  {
    var days := Flatten(billingWeeks);
    var req: seq<Request> := [];
    var k := 0;
    while k < |employees|
      invariant 0 <= k <= |employees|
      invariant Collect(employees[..k], EmployeeStep(infos, days)) == Success(req)
    {
      var er := EmployeeRequestsLoop(employees[k], infos, days);
      CollectSnoc(employees, EmployeeStep(infos, days), k);
      if er.Failure? {
        CollectPrefixFailure(employees, EmployeeStep(infos, days), k + 1);
        return Failure(er.error);
      }
      req := req + er.value;
      k := k + 1;
    }
    assert employees[..k] == employees;
    r := Success(req);
  }

  /** The loop over one employee's preferences in `prepare_requests`. */
  method EmployeeRequestsLoop(ei: EmployeeInfo, infos: seq<ShiftTypeInfo>, days: seq<DayEntry>)
    returns (r: Result<seq<Request>, ContextError>)
    ensures r == EmployeeRequests(ei, infos, days)
  {
    var pk := ei.employee.pk;
    var req: seq<Request> := [];
    var p := 0;
    while p < |ei.preferences|
      invariant 0 <= p <= |ei.preferences|
      invariant Collect(ei.preferences[..p], PreferenceStep(pk, infos, days)) == Success(req)
    {
      var pr := PreferenceRequestsLoop(pk, ei.preferences[p], infos, days);
      CollectSnoc(ei.preferences, PreferenceStep(pk, infos, days), p);
      if pr.Failure? {
        CollectPrefixFailure(ei.preferences, PreferenceStep(pk, infos, days), p + 1);
        return Failure(pr.error);
      }
      req := req + pr.value;
      p := p + 1;
    }
    assert ei.preferences[..p] == ei.preferences;
    r := Success(req);
  }

  /** The loop over the days for one preference in `prepare_requests`. */
  method PreferenceRequestsLoop(pk: int, pref: Preference, infos: seq<ShiftTypeInfo>, days: seq<DayEntry>)
    returns (r: Result<seq<Request>, ContextError>)
    ensures r == PreferenceRequests(pk, pref, infos, days)
  {
    var req: seq<Request> := [];
    var j := 0;
    while j < |days|
      invariant 0 <= j <= |days|
      invariant Collect(days[..j], DayStep(pk, pref, infos)) == Success(req)
    {
      ghost var before := req;
      var d := days[j];
      var c := CharAt(pref.activeDays, d.1);
      if c.None? {
        CollectFailsAt(days, DayStep(pk, pref, infos), j);
        return Failure(IndexError);
      }
      if c.value == '1' {
        var id := ShiftIdOf(infos, pref.shiftType);
        if id.None? {
          CollectFailsAt(days, DayStep(pk, pref, infos), j);
          return Failure(StopIteration);
        }
        assert DayStep(pk, pref, infos)(d) == Success([Request(pk, id.value, d.0, -1)]);
        req := req + [Request(pk, id.value, d.0, -1)];
      } else {
        assert DayStep(pk, pref, infos)(d) == Success([]);
      }
      CollectSnoc(days, DayStep(pk, pref, infos), j);
      assert req == before + DayStep(pk, pref, infos)(days[j]).value;
      j := j + 1;
    }
    assert days[..j] == days;
    r := Success(req);
  }

  /** A day raises nothing: the weekday indexes the active-days string and, when active, the preferred shift type is listed. */
  predicate DayHandled(pref: Preference, infos: seq<ShiftTypeInfo>, d: DayEntry)
  {
    CharAt(pref.activeDays, d.1).Some? &&
    (CharAt(pref.activeDays, d.1) == Some('1') ==> exists i :: 0 <= i < |infos| && infos[i].shiftType.id == pref.shiftType)
  }

  /** The requests are prepared without error exactly when every (employee, preference, day) is handled. */
  lemma RequestsSuccess(es: seq<EmployeeInfo>, infos: seq<ShiftTypeInfo>, days: seq<DayEntry>)
    ensures Requests(es, infos, days).Success? <==>
      forall k, p, j :: 0 <= k < |es| && 0 <= p < |es[k].preferences| && 0 <= j < |days| ==>
        DayHandled(es[k].preferences[p], infos, days[j])
  {
    forall k | 0 <= k < |es|
      ensures EmployeeRequests(es[k], infos, days).Success? <==>
        forall p, j :: 0 <= p < |es[k].preferences| && 0 <= j < |days| ==> DayHandled(es[k].preferences[p], infos, days[j])
    {
      var e := es[k];
      forall p | 0 <= p < |e.preferences|
        ensures PreferenceRequests(e.employee.pk, e.preferences[p], infos, days).Success? <==>
          forall j :: 0 <= j < |days| ==> DayHandled(e.preferences[p], infos, days[j])
      {
        CollectSuccess(days, DayStep(e.employee.pk, e.preferences[p], infos));
      }
      CollectSuccess(e.preferences, PreferenceStep(e.employee.pk, infos, days));
    }
    CollectSuccess(es, EmployeeStep(infos, days));
  }

  /**
   * The prepared requests are exactly, for every employee, preference and day
   * on whose weekday the preference is active, a request of weight −1 by that
   * employee for the preferred shift type on that day.
   */
  lemma RequestsMember(es: seq<EmployeeInfo>, infos: seq<ShiftTypeInfo>, days: seq<DayEntry>, q: Request)
    requires Requests(es, infos, days).Success?
    ensures q in Requests(es, infos, days).value <==>
      exists k, p, j :: 0 <= k < |es| && 0 <= p < |es[k].preferences| && 0 <= j < |days| &&
        CharAt(es[k].preferences[p].activeDays, days[j].1) == Some('1') &&
        q == Request(es[k].employee.pk, es[k].preferences[p].shiftType, days[j].0, -1)
  {
    var F := EmployeeStep(infos, days);
    CollectSuccess(es, F);
    CollectMember(es, F, q);
    forall k | 0 <= k < |es|
      ensures q in EmployeeRequests(es[k], infos, days).value <==>
        exists p, j :: 0 <= p < |es[k].preferences| && 0 <= j < |days| &&
          CharAt(es[k].preferences[p].activeDays, days[j].1) == Some('1') &&
          q == Request(es[k].employee.pk, es[k].preferences[p].shiftType, days[j].0, -1)
    {
      var e := es[k];
      var G := PreferenceStep(e.employee.pk, infos, days);
      assert F(e).Success?;
      CollectSuccess(e.preferences, G);
      CollectMember(e.preferences, G, q);
      forall p | 0 <= p < |e.preferences|
        ensures q in PreferenceRequests(e.employee.pk, e.preferences[p], infos, days).value <==>
          exists j :: 0 <= j < |days| &&
            CharAt(e.preferences[p].activeDays, days[j].1) == Some('1') &&
            q == Request(e.employee.pk, e.preferences[p].shiftType, days[j].0, -1)
      {
        var H := DayStep(e.employee.pk, e.preferences[p], infos);
        assert G(e.preferences[p]).Success?;
        CollectSuccess(days, H);
        CollectMember(days, H, q);
      }
    }
  }

  // ---------------------------------------------------------------------------
  // Fixed assignments

  /** A fixed assignment (employee, shift, day). */
  datatype FixedAssignment = FixedAssignment(employee: int, shift: int, day: int)

  /** The free shift (index 0) on each of an employee's absent days of the month. */
  function AbsenceFixes(e: EmployeeInfo, month: int, year: int): (r: seq<FixedAssignment>)
    ensures |r| == |DaysInMonthOf(e.absentDays, month, year)|
  {
    var ds := DaysInMonthOf(e.absentDays, month, year);
    seq(|ds|, i requires 0 <= i < |ds| => FixedAssignment(e.employee.pk, 0, ds[i]))
  }

  /** The fixes of all employees, employee by employee. */
  function FixedAssignments(es: seq<EmployeeInfo>, month: int, year: int): seq<FixedAssignment>
  {
    if es == [] then [] else FixedAssignments(es[..|es| - 1], month, year) + AbsenceFixes(es[|es| - 1], month, year)
  }

  /** `prepare_fixed_assignments`: the free shift for every employee on every absent day of the month. */
  method PrepareFixedAssignments(employees: seq<EmployeeInfo>, month: int, year: int) returns (fa: seq<FixedAssignment>)
    ensures fa == FixedAssignments(employees, month, year)
  {
    fa := [];
    var k := 0;
    while k < |employees|
      invariant 0 <= k <= |employees|
      invariant fa == FixedAssignments(employees[..k], month, year)
    {
      var ei := employees[k];
      var ds := DaysInMonthOf(ei.absentDays, month, year);
      ghost var before := fa;
      var i := 0;
      while i < |ds|
        invariant 0 <= i <= |ds|
        invariant fa == before + AbsenceFixes(ei, month, year)[..i]
      {
        assert AbsenceFixes(ei, month, year)[..i + 1] == AbsenceFixes(ei, month, year)[..i] + [FixedAssignment(ei.employee.pk, 0, ds[i])];
        fa := fa + [FixedAssignment(ei.employee.pk, 0, ds[i])];
        i := i + 1;
      }
      assert AbsenceFixes(ei, month, year)[..i] == AbsenceFixes(ei, month, year);
      assert employees[..k + 1][..k] == employees[..k];
      k := k + 1;
    }
    assert employees[..k] == employees;
  }

  /**
   * The fixed assignments are exactly the free shift for each employee on
   * each day of the month on which one of the employee's absent dates falls.
   */
  lemma {:induction false} FixedAssignmentsMember(es: seq<EmployeeInfo>, month: int, year: int, x: FixedAssignment)
    ensures x in FixedAssignments(es, month, year) <==>
      x.shift == 0 &&
      exists k, d :: 0 <= k < |es| && d in es[k].absentDays && d.month == month && d.year == year &&
        x == FixedAssignment(es[k].employee.pk, 0, d.day)
  {
    if es != [] {
      var front, last := es[..|es| - 1], es[|es| - 1];
      FixedAssignmentsMember(front, month, year, x);
      var ds := DaysInMonthOf(last.absentDays, month, year);
      var fixes := AbsenceFixes(last, month, year);
      if x in fixes {
        var i :| 0 <= i < |fixes| && fixes[i] == x;
        assert x.day == ds[i];
      }
      if x.shift == 0 && x.employee == last.employee.pk && x.day in ds {
        var i :| 0 <= i < |ds| && ds[i] == x.day;
        assert fixes[i] == x;
      }
      assert x in fixes <==> x.shift == 0 && x.employee == last.employee.pk && x.day in ds;
      if x.shift == 0 && (exists k, d :: 0 <= k < |es| && d in es[k].absentDays && d.month == month && d.year == year &&
                                           x == FixedAssignment(es[k].employee.pk, 0, d.day)) {
        var k, d :| 0 <= k < |es| && d in es[k].absentDays && d.month == month && d.year == year &&
          x == FixedAssignment(es[k].employee.pk, 0, d.day);
        if k < |front| {
          assert es[k] == front[k];
        }
      }
    }
  }

  /**
   * Each employee contributes one fix per absent date in the month: never
   * more fixes than absent dates, and exactly as many when every absent date
   * of every employee falls in the month.
   */
  lemma {:induction false} FixedAssignmentsLength(es: seq<EmployeeInfo>, month: int, year: int)
    ensures |FixedAssignments(es, month, year)| <= AbsentDatesCount(es)
    ensures |FixedAssignments(es, month, year)| == AbsentDatesCount(es) <==>
      forall k, i :: 0 <= k < |es| && 0 <= i < |es[k].absentDays| ==>
        es[k].absentDays[i].month == month && es[k].absentDays[i].year == year
  {
    if es != [] {
      var front, last := es[..|es| - 1], es[|es| - 1];
      FixedAssignmentsLength(front, month, year);
      assert forall k :: 0 <= k < |front| ==> front[k] == es[k];
      assert |AbsenceFixes(last, month, year)| == |DaysInMonthOf(last.absentDays, month, year)|;
    }
  }

  /** Σ |absent_days| over the employees. */
  function AbsentDatesCount(es: seq<EmployeeInfo>): nat
  {
    if es == [] then 0 else AbsentDatesCount(es[..|es| - 1]) + |es[|es| - 1].absentDays|
  }

  // ---------------------------------------------------------------------------
  // Full-time employees and totals

  /** `get_full_time_employees`: the employees whose job time is the full-time job time, in list order. */
  function FullTimeEmployees(es: seq<EmployeeInfo>, jt: int): (r: seq<EmployeeInfo>)
    ensures |r| <= |es|
    ensures forall i :: 0 <= i < |r| ==> r[i] in es && r[i].jobTime == jt
    ensures forall i :: 0 <= i < |es| && es[i].jobTime == jt ==> es[i] in r
  {
    if es == [] then []
    else
      var rest := FullTimeEmployees(es[..|es| - 1], jt);
      assert forall i :: 0 <= i < |es| - 1 ==> es[..|es| - 1][i] == es[i];
      rest + (if es[|es| - 1].jobTime == jt then [es[|es| - 1]] else [])
  }

  /**
   * The selection keeps list order: selecting from two lists one after the
   * other is selecting from each and joining the results.
   */
  lemma {:induction false} FullTimeEmployeesAppend(xs: seq<EmployeeInfo>, ys: seq<EmployeeInfo>, jt: int)
    ensures FullTimeEmployees(xs + ys, jt) == FullTimeEmployees(xs, jt) + FullTimeEmployees(ys, jt)
  {
    if ys == [] {
      assert xs + ys == xs;
    } else {
      var front, y := ys[..|ys| - 1], ys[|ys| - 1];
      var zs := xs + ys;
      FullTimeEmployeesAppend(xs, front, jt);
      assert zs[..|zs| - 1] == xs + front;
      assert zs[|zs| - 1] == y;
      var tail := if y.jobTime == jt then [y] else [];
      assert FullTimeEmployees(zs, jt) == FullTimeEmployees(xs + front, jt) + tail;
      assert FullTimeEmployees(ys, jt) == FullTimeEmployees(front, jt) + tail;
    }
  }

  /** Each full-time employee is kept as many times as it is listed; nobody else is kept. */
  lemma {:induction false} FullTimeEmployeesCount(es: seq<EmployeeInfo>, jt: int, e: EmployeeInfo)
    ensures multiset(FullTimeEmployees(es, jt))[e] == if e.jobTime == jt then multiset(es)[e] else 0
  {
    if es != [] {
      FullTimeEmployeesCount(es[..|es| - 1], jt, e);
      assert es == es[..|es| - 1] + [es[|es| - 1]];
    }
  }

  /**
   * The two tests of the overtime branch in `__init__`: nobody is kept exactly
   * when nobody is full-time, and everybody exactly when everybody is.
   */
  lemma {:induction false} FullTimeEmployeesAllOrNone(es: seq<EmployeeInfo>, jt: int)
    ensures |FullTimeEmployees(es, jt)| == 0 <==> forall i :: 0 <= i < |es| ==> es[i].jobTime != jt
    ensures |FullTimeEmployees(es, jt)| == |es| <==> forall i :: 0 <= i < |es| ==> es[i].jobTime == jt
  {
    if es != [] {
      var front := es[..|es| - 1];
      FullTimeEmployeesAllOrNone(front, jt);
      assert forall i :: 0 <= i < |front| ==> front[i] == es[i];
    }
  }

  /** A single employee is kept exactly when full-time. */
  lemma FullTimeEmployeesSingle(e: EmployeeInfo, jt: int)
    ensures FullTimeEmployees([e], jt) == if e.jobTime == jt then [e] else []
  {
    assert [e][..0] == [];
  }

  /** Σ job_time over the employees. */
  function TotalJobTime(es: seq<EmployeeInfo>): int
  {
    if es == [] then 0 else TotalJobTime(es[..|es| - 1]) + es[|es| - 1].jobTime
  }

  /** Σ min(jt, max_work_time) over the employees. */
  function CappedWorkTime(es: seq<EmployeeInfo>, jt: int): int
    reads es
  {
    if es == [] then 0
    else
      var e := es[|es| - 1];
      CappedWorkTime(es[..|es| - 1], jt) + (if jt < e.maxWorkTime then jt else e.maxWorkTime)
  }

  /** The full-time employees' job times add up to the full-time job time once for each of them. */
  lemma {:induction false} FullTimeJobTime(es: seq<EmployeeInfo>, jt: int)
    ensures TotalJobTime(FullTimeEmployees(es, jt)) == |FullTimeEmployees(es, jt)| * jt
  {
    if es != [] {
      var front := es[..|es| - 1];
      FullTimeJobTime(front, jt);
      var rest := FullTimeEmployees(front, jt);
      if es[|es| - 1].jobTime == jt {
        assert (rest + [es[|es| - 1]])[..|rest|] == rest;
        Distribute(|rest|, 1, jt);
      } else {
        assert rest + [] == rest;
      }
    }
  }

  /** `get_shift_info_by_id`: the first shift type with the given id; StopIteration when there is none. */
  function ShiftInfoById(infos: seq<ShiftTypeInfo>, id: int): (r: Option<ShiftTypeInfo>)
    ensures r.Some? <==> exists i :: 0 <= i < |infos| && infos[i].id == id
    ensures r.Some? ==> r.value.id == id
    ensures r.Some? ==> exists i :: 0 <= i < |infos| && infos[i] == r.value && forall j :: 0 <= j < i ==> infos[j].id != id
  {
    if infos == [] then None
    else if infos[0].id == id then Some(infos[0])
    else
      var r := ShiftInfoById(infos[1..], id);
      assert forall i :: 1 <= i < |infos| ==> infos[i] == infos[1..][i - 1];
      if r.Some? then
        var i :| 0 <= i < |infos[1..]| && infos[1..][i] == r.value && forall j :: 0 <= j < i ==> infos[1..][j].id != id;
        assert infos[i + 1] == r.value && forall j :: 0 <= j < i + 1 ==> infos[j].id != id;
        r
      else r
  }

  // ---------------------------------------------------------------------------
  // The context

  /** The exact value of a Python true division `num / den`, taken only when den != 0. */
  datatype Ratio = Ratio(num: int, den: int)

  /**
   * What the construction derives before it changes anything: the shift
   * type infos, the weekly demands, the calendar, the requests and fixed
   * assignments, the illegal transitions, the overnight rules and the two
   * totals.
   */
  datatype Prepared = Prepared(
    shiftTypes: seq<ShiftTypeInfo>,
    weeklyCoverDemands: seq<seq<int>>,
    monthByWeeks: seq<seq<DayEntry>>,
    monthByBillingWeeks: seq<seq<DayEntry>>,
    requests: seq<Request>,
    fixedAssignments: seq<FixedAssignment>,
    illegalTransitions: seq<Transition>,
    sequenceRules: seq<SequenceRule>,
    weeklyRules: seq<SequenceRule>,
    totalWorkTime: int,
    totalJobTime: int)

  /** Everything the construction computes: the prepared part, then the employees' work times and the multipliers. */
  datatype Context = Context(
    employees: seq<EmployeeInfo>,
    month: int,
    year: int,
    jobTime: int,
    prepared: Prepared,
    maxWorkTime: int,
    jobTimeMultiplier: Ratio,
    overtimeMultiplier: Option<Ratio>,
    overtimeForFullTimers: bool,
    overtimeAboveFullTime: int)

  /** The sort key `lambda e: e.max_work_time`, read from a snapshot of the values. */
  function WorkTimeKey(snap: map<EmployeeInfo, int>): EmployeeInfo -> seq<int>
  {
    e => if e in snap then [snap[e]] else []
  }

  /**
   * The multipliers divide by zero: the total job time is zero, or some but
   * not all employees are full-time and the others' job times add up to zero.
   */
  predicate DividesByZero(sorted: seq<EmployeeInfo>, totalJobTime: int, jt: int)
  {
    var ft := FullTimeEmployees(sorted, jt);
    totalJobTime == 0 || (0 < |ft| && |ft| != |sorted| && totalJobTime - TotalJobTime(ft) == 0)
  }

  /**
   * The multipliers: `total_work_time / total_job_time`, and the overtime
   * multiplier, which is left unset without full-time employees, 1 when
   * everyone is full-time, and otherwise the work time left after the
   * full-timers' job times over the job time left after them.
   */
  function Multipliers(sorted: seq<EmployeeInfo>, totalWorkTime: int, totalJobTime: int, jt: int)
    : (r: Result<(Ratio, Option<Ratio>), ContextError>)
    ensures r.Failure? <==> DividesByZero(sorted, totalJobTime, jt)
    ensures r.Failure? ==> r.error == ZeroDivisionError
    ensures r.Success? ==>
      var ft := FullTimeEmployees(sorted, jt);
      r.value.0 == Ratio(totalWorkTime, totalJobTime) && r.value.0.den != 0 &&
      (|ft| == 0 ==> r.value.1 == None) &&
      (0 < |ft| == |sorted| ==> r.value.1 == Some(Ratio(1, 1))) &&
      (0 < |ft| != |sorted| ==>
        r.value.1 == Some(Ratio(totalWorkTime - TotalJobTime(ft), totalJobTime - TotalJobTime(ft))) &&
        r.value.1.value.den != 0)
  {
    var ft := FullTimeEmployees(sorted, jt);
    if totalJobTime == 0 then Failure(ZeroDivisionError)
    else if |ft| == 0 then Success((Ratio(totalWorkTime, totalJobTime), None))
    else if |sorted| == |ft| then Success((Ratio(totalWorkTime, totalJobTime), Some(Ratio(1, 1))))
    else if totalJobTime - TotalJobTime(ft) == 0 then Failure(ZeroDivisionError)
    else Success((Ratio(totalWorkTime, totalJobTime), Some(Ratio(totalWorkTime - TotalJobTime(ft), totalJobTime - TotalJobTime(ft)))))
  }

  /** Each prepared part is what its own operation computes from the inputs. */
  predicate PreparedFrom(p: Prepared, emp: seq<EmployeeInfo>, st: seq<ShiftType>, year: int, month: int)
    requires ValidShiftTypes(st)
    requires 1 <= year && 1 <= month <= 12
  {
    var infos := ShiftTypeInfos(st);
    var billing := GetMonthByBillingWeeks(year, month);
    var night := OvernightIds(infos);
    p.shiftTypes == infos && p.weeklyCoverDemands == WeeklyCoverDemands(infos) &&
    p.monthByWeeks == GetMonthByWeeks(year, month) && p.monthByBillingWeeks == billing &&
    Requests(emp, infos, Flatten(billing)) == Success(p.requests) &&
    p.fixedAssignments == FixedAssignments(emp, month, year) &&
    p.illegalTransitions == TransitionsUpTo(infos, |infos|) &&
    |p.sequenceRules| == |p.weeklyRules| == |night| &&
    (forall k :: 0 <= k < |p.sequenceRules| ==>
      p.sequenceRules[k] == NightSequenceRule(night[k]) && p.weeklyRules[k] == NightWeeklyRule(night[k])) &&
    p.totalWorkTime == (CountWeekdaysBelow(Flatten(billing), 7) * ShiftMinutes(infos)) / 60 &&
    p.totalJobTime == TotalJobTime(emp)
  }

  /**
   * The first half of `Context.__init__`, up to the total job time: fails
   * exactly when preparing the requests raises, with that error.
   */
  method PrepareContext(emp: seq<EmployeeInfo>, st: seq<ShiftType>, year: int, month: int)
    returns (r: Result<Prepared, ContextError>)
    requires ValidShiftTypes(st)
    requires 1 <= year && 1 <= month <= 12
    ensures var req := Requests(emp, ShiftTypeInfos(st), Flatten(GetMonthByBillingWeeks(year, month)));
      (r.Failure? <==> req.Failure?) && (r.Failure? ==> r.error == req.error)
    ensures r.Success? ==> PreparedFrom(r.value, emp, st, year, month)
  {
    var infos := ShiftTypeInfos(st);
    var demands := WeeklyCoverDemands(infos);
    var byWeeks := GetMonthByWeeks(year, month);
    var billing := GetMonthByBillingWeeks(year, month);
    var req := PrepareRequests(emp, infos, billing);
    if req.Failure? {
      return Failure(req.error);
    }
    var fixes := PrepareFixedAssignments(emp, month, year);
    var transitions := FindIllegalTransitions(infos);
    var sc, wsc := FindOvernightShifts(infos);
    var totalWorkTime := CalculateTotalWorkTime(infos, billing);
    var totalJobTime := TotalJobTime(emp);
    r := Success(Prepared(infos, demands, byWeeks, billing, req.value, fixes, transitions, sc, wsc, totalWorkTime, totalJobTime));
  }

  /**
   * `Context(emp, st, year, month, jt)`. Preparing the requests can raise
   * before anything is changed; after the employees' maximum work times have
   * been added to, the multipliers can divide by zero.
   */
  method NewContext(emp: seq<EmployeeInfo>, st: seq<ShiftType>, year: int, month: int, jt: int)
    returns (r: Result<Context, ContextError>)
    requires ValidShiftTypes(st)
    requires 1 <= year && 1 <= month <= 12
    modifies emp
    ensures var req := Requests(emp, ShiftTypeInfos(st), Flatten(GetMonthByBillingWeeks(year, month)));
      req.Failure? ==> r == Failure(req.error) && forall e :: e in emp ==> e.maxWorkTime == old(e.maxWorkTime)
    ensures var req := Requests(emp, ShiftTypeInfos(st), Flatten(GetMonthByBillingWeeks(year, month)));
      req.Success? ==> forall e :: e in emp ==>
        e.maxWorkTime == old(e.maxWorkTime) + Occurrences(emp, e) * EmployeeAllowance(e, GetMonthByBillingWeeks(year, month), year, month)
    ensures var req := Requests(emp, ShiftTypeInfos(st), Flatten(GetMonthByBillingWeeks(year, month)));
      req.Success? && r.Failure? ==>
        r.error == ZeroDivisionError && DividesByZero(Sort(emp, WorkTimeKey(Snapshot(emp))), TotalJobTime(emp), jt)
    ensures r.Success? ==>
      var c := r.value;
      PreparedFrom(c.prepared, emp, st, year, month) &&
      c.employees == Sort(emp, WorkTimeKey(Snapshot(emp))) &&
      c.month == month && c.year == year && c.jobTime == jt &&
      c.maxWorkTime == RunningTotal(emp, old(Snapshot(emp)), GetMonthByBillingWeeks(year, month), year, month) &&
      Multipliers(c.employees, c.prepared.totalWorkTime, c.prepared.totalJobTime, jt) == Success((c.jobTimeMultiplier, c.overtimeMultiplier))
    ensures r.Success? ==>
      var c := r.value;
      c.overtimeForFullTimers == (CappedWorkTime(c.employees, jt) < c.prepared.totalWorkTime) &&
      c.overtimeAboveFullTime == c.prepared.totalWorkTime - CappedWorkTime(c.employees, jt)
  {
    var p := PrepareContext(emp, st, year, month);
    if p.Failure? {
      return Failure(p.error);
    }
    var maxWorkTime := CalculateMaxWorkTime(emp, year, month);
    var sorted := Sort(emp, WorkTimeKey(Snapshot(emp)));
    var m := Multipliers(sorted, p.value.totalWorkTime, p.value.totalJobTime, jt);
    if m.Failure? {
      return Failure(m.error);
    }
    var capped := CappedWorkTime(sorted, jt);
    r := Success(Context(sorted, month, year, jt, p.value, maxWorkTime, m.value.0, m.value.1,
                         capped < p.value.totalWorkTime, p.value.totalWorkTime - capped));
  }
}
