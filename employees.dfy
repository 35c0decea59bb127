/**
 * What the scheduler derives about one employee (`EmployeeInfo` in
 * scripts/context.py): the job time owed this month, the assignments split
 * by kind, and the days and hours of absence.
 */
module Employees {
  import opened Wrappers
  import opened Dates
  import opened ShiftTypes

  /** An employee record: its key and its job-time code ("1", "1/2", "1/4" or "3/4"). */
  datatype Employee = Employee(pk: int, jobTime: string)

  /** A preference: the shift type wanted (by id) and a weekday mask such as "1111100". */
  datatype Preference = Preference(shiftType: int, activeDays: string)

  /** An absence over an inclusive range of dates, worth `hoursNumber` hours. */
  datatype Absence = Absence(start: Date, end: Date, hoursNumber: int)

  /** An assignment to a shift type, positive or negative, for a term or, when a bound is missing, indefinitely. */
  datatype Assignment = Assignment(shiftType: ShiftType, negativeFlag: bool, start: Option<Date>, end: Option<Date>)

  /** One day of a term assignment. */
  datatype TermAssignment = TermAssignment(shiftType: ShiftType, negativeFlag: bool, date: Date)

  /**
   * `calculate_job_time`: the hours owed for a job-time code, given the
   * full-time hours jt. An unknown code counts as full time.
   */
  function CalculateJobTime(code: string, jt: int): int
  {
    match code
    case "1" => jt
    case "1/2" => jt / 2
    case "1/4" => jt / 4
    case "3/4" => jt * 3 / 4
    case _ => jt
  }

  /** The fraction of full time a code stands for, as numerator and denominator. */
  function JobFraction(code: string): (int, int)
  {
    if code == "1/2" then (1, 2)
    else if code == "1/4" then (1, 4)
    else if code == "3/4" then (3, 4)
    else (1, 1)
  }

  /**
   * The hours owed are the code's fraction of full time, rounded down, and for
   * non-negative full-time hours the four codes are ordered by size.
   */
  lemma JobTimeIsFraction(code: string, jt: int)
    ensures var (p, q) := JobFraction(code);
      q * CalculateJobTime(code, jt) <= p * jt < q * CalculateJobTime(code, jt) + q
    ensures 0 <= jt ==>
      0 <= CalculateJobTime("1/4", jt) <= CalculateJobTime("1/2", jt) <=
      CalculateJobTime("3/4", jt) <= CalculateJobTime("1", jt) == jt
  {
  }

  /** Half time of 168 hours is 84 hours; full time is not. */
  lemma HalfTimeOf168()
    ensures CalculateJobTime("1/2", 168) == 84
    ensures CalculateJobTime("1", 168) != 84
  {
  }

  /** An assignment with both bounds set is a term assignment. */
  predicate IsTerm(a: Assignment)
  {
    a.start.Some? && a.end.Some?
  }

  predicate ValidAssignments(ass: seq<Assignment>)
  {
    forall i :: 0 <= i < |ass| ==> IsTerm(ass[i]) ==> Valid(ass[i].start.value) && Valid(ass[i].end.value)
  }

  /** The days of one term assignment, each with its shift type and flag. */
  function TermDays(a: Assignment): (r: seq<TermAssignment>)
    requires IsTerm(a) && Valid(a.start.value) && Valid(a.end.value)
    ensures |r| == RangeLength(a.start.value, a.end.value)
    ensures forall t :: t in r ==> t.shiftType == a.shiftType && t.negativeFlag == a.negativeFlag && InTerm(t.date, a)
  {
    var days := DateRange(a.start.value, a.end.value);
    assert forall i :: 0 <= i < |days| ==> InTerm(days[i], a) by {
      forall i | 0 <= i < |days|
        ensures InTerm(days[i], a)
      {
        DateRangeSpan(a.start.value, a.end.value, i);
      }
    }
    seq(|days|, i requires 0 <= i < |days| => TermAssignment(a.shiftType, a.negativeFlag, days[i]))
  }

  /** A valid date between the assignment's bounds, both included. */
  predicate InTerm(d: Date, a: Assignment)
    requires IsTerm(a) && Valid(a.start.value) && Valid(a.end.value)
  {
    Valid(d) && Ordinal(a.start.value) <= Ordinal(d) <= Ordinal(a.end.value)
  }

  function TermAssignments(ass: seq<Assignment>): seq<TermAssignment>
    requires ValidAssignments(ass)
  {
    if ass == [] then []
    else
      var a := ass[|ass| - 1];
      TermAssignments(ass[..|ass| - 1]) + (if IsTerm(a) then TermDays(a) else [])
  }

  function NegativeIndefinite(ass: seq<Assignment>): seq<ShiftType>
  {
    if ass == [] then []
    else
      var a := ass[|ass| - 1];
      NegativeIndefinite(ass[..|ass| - 1]) + (if !IsTerm(a) && a.negativeFlag then [a.shiftType] else [])
  }

  function PositiveIndefinite(ass: seq<Assignment>): seq<ShiftType>
  {
    if ass == [] then []
    else
      var a := ass[|ass| - 1];
      PositiveIndefinite(ass[..|ass| - 1]) + (if !IsTerm(a) && !a.negativeFlag then [a.shiftType] else [])
  }

  /** Σ (end − start + 1) over the term assignments. */
  function TermLength(ass: seq<Assignment>): nat
    requires ValidAssignments(ass)
  {
    if ass == [] then 0
    else
      var a := ass[|ass| - 1];
      TermLength(ass[..|ass| - 1]) + (if IsTerm(a) then RangeLength(a.start.value, a.end.value) else 0)
  }

  /** How many assignments lack a bound. */
  function IndefiniteCount(ass: seq<Assignment>): nat
  {
    if ass == [] then 0
    else IndefiniteCount(ass[..|ass| - 1]) + (if IsTerm(ass[|ass| - 1]) then 0 else 1)
  }

  /**
   * `prepare_assignments`: each term assignment contributes one tuple per day
   * of its term; every other assignment lands in exactly one of the negative
   * and positive indefinite lists, chosen by its flag.
   */
  lemma {:induction false} AssignmentsPartition(ass: seq<Assignment>)
    requires ValidAssignments(ass)
    ensures |TermAssignments(ass)| == TermLength(ass)
    ensures |NegativeIndefinite(ass)| + |PositiveIndefinite(ass)| == IndefiniteCount(ass)
    ensures multiset(NegativeIndefinite(ass)) + multiset(PositiveIndefinite(ass)) == multiset(IndefiniteShiftTypes(ass))
  {
    if ass != [] {
      AssignmentsPartition(ass[..|ass| - 1]);
    }
  }

  /** Every term tuple carries the shift type and flag of some term assignment, on a day of its term. */
  lemma {:induction false} TermAssignmentsFrom(ass: seq<Assignment>)
    requires ValidAssignments(ass)
    ensures forall t :: t in TermAssignments(ass) ==>
      exists i :: 0 <= i < |ass| && IsTerm(ass[i]) && t.shiftType == ass[i].shiftType && t.negativeFlag == ass[i].negativeFlag && InTerm(t.date, ass[i])
  {
    if ass != [] {
      var front, a := ass[..|ass| - 1], ass[|ass| - 1];
      TermAssignmentsFrom(front);
      forall t | t in TermAssignments(ass)
        ensures exists i :: 0 <= i < |ass| && IsTerm(ass[i]) && t.shiftType == ass[i].shiftType && t.negativeFlag == ass[i].negativeFlag && InTerm(t.date, ass[i])
      {
        if t in TermAssignments(front) {
          var i :| 0 <= i < |front| && IsTerm(front[i]) && t.shiftType == front[i].shiftType && t.negativeFlag == front[i].negativeFlag && InTerm(t.date, front[i]);
          assert ass[i] == front[i];
        } else {
          assert ass[|ass| - 1] == a;
        }
      }
    }
  }

  /** The shift types of the assignments that lack a bound, in order. */
  function IndefiniteShiftTypes(ass: seq<Assignment>): seq<ShiftType>
  {
    if ass == [] then []
    else
      var a := ass[|ass| - 1];
      IndefiniteShiftTypes(ass[..|ass| - 1]) + (if IsTerm(a) then [] else [a.shiftType])
  }

  /** `prepare_assignments`: one pass over the assignments, appending to the three lists. */
  method PrepareAssignments(ass: seq<Assignment>) returns (ta: seq<TermAssignment>, nia: seq<ShiftType>, pia: seq<ShiftType>)
    requires ValidAssignments(ass)
    ensures ta == TermAssignments(ass)
    ensures nia == NegativeIndefinite(ass)
    ensures pia == PositiveIndefinite(ass)
  {
    ta, nia, pia := [], [], [];
    var i := 0;
    while i < |ass|
      invariant 0 <= i <= |ass|
      invariant ta == TermAssignments(ass[..i])
      invariant nia == NegativeIndefinite(ass[..i])
      invariant pia == PositiveIndefinite(ass[..i])
    {
      var a := ass[i];
      assert ass[..i + 1][..i] == ass[..i];
      if a.end.Some? && a.start.Some? {
        var days := DaysOfRange(a.start.value, a.end.value);
        var k := 0;
        var term := [];
        while k < |days|
          invariant 0 <= k <= |days|
          invariant term == TermDays(a)[..k]
        {
          term := term + [TermAssignment(a.shiftType, a.negativeFlag, days[k])];
          k := k + 1;
        }
        ta := ta + term;
      } else if a.negativeFlag {
        nia := nia + [a.shiftType];
      } else {
        pia := pia + [a.shiftType];
      }
      i := i + 1;
    }
    assert ass[..i] == ass;
  }

  predicate ValidAbsences(ab: seq<Absence>)
  {
    forall i :: 0 <= i < |ab| ==> Valid(ab[i].start) && Valid(ab[i].end)
  }

  /** The absences as (start, end) ranges. */
  function AbsenceRanges(ab: seq<Absence>): (rs: seq<(Date, Date)>)
    requires ValidAbsences(ab)
    ensures |rs| == |ab| && ValidRanges(rs)
  {
    seq(|ab|, i requires 0 <= i < |ab| => (ab[i].start, ab[i].end))
  }

  /** Σ hours_number over the absences. */
  function AbsentHours(ab: seq<Absence>): int
  {
    if ab == [] then 0 else AbsentHours(ab[..|ab| - 1]) + ab[|ab| - 1].hoursNumber
  }

  /**
   * `prepare_absent_days`: the absent days, absence by absence and day by
   * day, Σ (end − start + 1) of them, each inside one of the absences; and
   * the absences' hours added up.
   */
  method PrepareAbsentDays(ab: seq<Absence>) returns (ad: seq<Date>, at: int)
    requires ValidAbsences(ab)
    ensures ad == RangesDays(AbsenceRanges(ab))
    ensures |ad| == RangesLength(AbsenceRanges(ab))
    ensures forall d :: d in ad ==>
      Valid(d) && exists i :: 0 <= i < |ab| && Ordinal(ab[i].start) <= Ordinal(d) <= Ordinal(ab[i].end)
    ensures at == AbsentHours(ab)
  {
    var rs := AbsenceRanges(ab);
    ad, at := [], 0;
    var i := 0;
    while i < |ab|
      invariant 0 <= i <= |ab|
      invariant ad == RangesDays(rs[..i])
      invariant at == AbsentHours(ab[..i])
    {
      at := at + ab[i].hoursNumber;
      var days := DaysOfRange(ab[i].start, ab[i].end);
      assert rs[..i + 1][..i] == rs[..i];
      assert ab[..i + 1][..i] == ab[..i];
      ad := ad + days;
      i := i + 1;
    }
    assert rs[..i] == rs;
    assert ab[..i] == ab;
    AbsenceDaysFacts(ab);
  }

  /** The absent days number the lengths of the ranges added up, and each lies in some absence's range. */
  lemma AbsenceDaysFacts(ab: seq<Absence>)
    requires ValidAbsences(ab)
    ensures var ad := RangesDays(AbsenceRanges(ab));
      |ad| == RangesLength(AbsenceRanges(ab)) &&
      forall d :: d in ad ==>
        Valid(d) && exists i :: 0 <= i < |ab| && Ordinal(ab[i].start) <= Ordinal(d) <= Ordinal(ab[i].end)
  {
    var rs := AbsenceRanges(ab);
    RangesDaysLength(rs);
    forall d | d in RangesDays(rs)
      ensures Valid(d)
      ensures exists i :: 0 <= i < |ab| && Ordinal(ab[i].start) <= Ordinal(d) <= Ordinal(ab[i].end)
    {
      RangesDaysWithin(rs, d);
    }
  }

  /**
   * An employee as the scheduler sees it. Everything is fixed at construction
   * except `maxWorkTime`, which the scheduling context adds to week by week.
   */
  class EmployeeInfo {
    const employee: Employee
    const workplaces: seq<int>
    const preferences: seq<Preference>
    const assignments: seq<Assignment>
    const termAssignments: seq<TermAssignment>
    const negativeIndefiniteAssignments: seq<ShiftType>
    const positiveIndefiniteAssignments: seq<ShiftType>
    const absences: seq<Absence>
    const absentDays: seq<Date>
    const absentTime: int
    const jobTime: int
    var maxWorkTime: int

    /** `EmployeeInfo(emp, wp, pref, ab, ass, jt)` */
    constructor (emp: Employee, wp: seq<int>, pref: seq<Preference>, ab: seq<Absence>, ass: seq<Assignment>, jt: int)
      requires ValidAssignments(ass) && ValidAbsences(ab)
      ensures employee == emp && workplaces == wp && preferences == pref
      ensures assignments == ass && absences == ab
      ensures termAssignments == TermAssignments(ass)
      ensures negativeIndefiniteAssignments == NegativeIndefinite(ass)
      ensures positiveIndefiniteAssignments == PositiveIndefinite(ass)
      ensures absentDays == RangesDays(AbsenceRanges(ab))
      ensures absentTime == AbsentHours(ab)
      ensures jobTime == CalculateJobTime(emp.jobTime, jt) - AbsentHours(ab)
      ensures maxWorkTime == 0
    {
      employee := emp;
      workplaces := wp;
      preferences := pref;
      assignments := ass;
      var ta, nia, pia := PrepareAssignments(ass);
      termAssignments := ta;
      negativeIndefiniteAssignments := nia;
      positiveIndefiniteAssignments := pia;
      absences := ab;
      var ad, at := PrepareAbsentDays(ab);
      absentDays := ad;
      absentTime := at;
      jobTime := CalculateJobTime(emp.jobTime, jt) - at;
      maxWorkTime := 0;
    }
  }
}
