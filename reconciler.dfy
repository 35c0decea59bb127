/**
 * What scripts/run_algorithm.py does with a solved schedule before printing
 * it: `update_working_hours` tallies every employee's assigned hours, and
 * `delete_excess_shifts` takes away the shifts the solver assigned beyond
 * the demand, one excess (shift, day, count) at a time.
 *
 * The solver itself is not modelled: its solution is the map `work` from
 * (employee pk, shift id, day) to the Boolean it chose, and the excesses it
 * reported are given as a list. The hours tally is the map `workTime` from
 * employee pk to hours. Both are fields of `Solution`, whose methods update
 * them in place as the two closures do.
 */
module Reconciler {
  import opened Wrappers
  import opened Sorting
  import opened ShiftTypes
  import SchedulingContext

  /** An employee as the reconciler sees one: primary key and job time in hours. */
  datatype Worker = Worker(pk: int, jobTime: int)

  /** The solver variable `work[pk, shift, day]`. */
  datatype Slot = Slot(pk: int, shift: int, day: int)

  /** A reported excess: `count` more employees than demanded on `shift` on `day`. */
  datatype Excess = Excess(shift: int, day: int, count: int)

  datatype ReconcileError = IndexError | StopIteration | ValueError | AttributeError

  /** The id of the free shift, inserted first into the shift types. */
  const FreeShiftId: int := 0

  /** `solver.BooleanValue(work[slot])`; the solver creates every slot it is asked about. */
  function Worked(work: map<Slot, bool>, slot: Slot): bool
  {
    slot in work && work[slot]
  }

  /** `work_time[pk]`; every employee's tally starts at 0 before solving. */
  function WorkTimeOf(workTime: map<int, int>, pk: int): int
  {
    if pk in workTime then workTime[pk] else 0
  }

  /** How many of the workers have the given primary key. */
  function CountPk(workers: seq<Worker>, pk: int): (c: nat)
    ensures c <= |workers|
  {
    if workers == [] then 0
    else CountPk(workers[..|workers| - 1], pk) + (if workers[|workers| - 1].pk == pk then 1 else 0)
  }

  // ---------------------------------------------------------------------------
  // Lists

  /** `[x for x in xs if p(x)]` */
  function Filter<T>(xs: seq<T>, p: T -> bool): (r: seq<T>)
    ensures |r| <= |xs|
  {
    if xs == [] then [] else (if p(xs[0]) then [xs[0]] else []) + Filter(xs[1..], p)
  }

  /** `[x for x in xs if not p(x)]` */
  function Reject<T>(xs: seq<T>, p: T -> bool): (r: seq<T>)
    ensures |r| <= |xs|
  {
    if xs == [] then [] else (if p(xs[0]) then [] else [xs[0]]) + Reject(xs[1..], p)
  }

  /** `xs.remove(y)`: drops the first element equal to y. */
  function RemoveFirst<T(==)>(xs: seq<T>, y: T): seq<T>
  {
    if xs == [] then [] else if xs[0] == y then xs[1..] else [xs[0]] + RemoveFirst(xs[1..], y)
  }

  /** No element occurs twice. */
  ghost predicate NoDuplicates<T(!new)>(xs: seq<T>)
  {
    forall y :: multiset(xs)[y] <= 1
  }

  lemma {:induction false} FilterMember<T>(xs: seq<T>, p: T -> bool, y: T)
    ensures y in Filter(xs, p) <==> y in xs && p(y)
  {
    if xs != [] {
      FilterMember(xs[1..], p, y);
      assert xs == [xs[0]] + xs[1..];
    }
  }

  lemma FilterFacts<T>(xs: seq<T>, p: T -> bool)
    ensures forall y :: y in Filter(xs, p) <==> y in xs && p(y)
  {
    forall y
      ensures y in Filter(xs, p) <==> y in xs && p(y)
    {
      FilterMember(xs, p, y);
    }
  }

  lemma RejectFacts<T>(xs: seq<T>, p: T -> bool)
    ensures forall y :: y in Reject(xs, p) <==> y in xs && !p(y)
  {
    forall y
      ensures y in Reject(xs, p) <==> y in xs && !p(y)
    {
      RejectMember(xs, p, y);
    }
  }

  lemma {:induction false} RejectMember<T>(xs: seq<T>, p: T -> bool, y: T)
    ensures y in Reject(xs, p) <==> y in xs && !p(y)
  {
    if xs != [] {
      RejectMember(xs[1..], p, y);
      assert xs == [xs[0]] + xs[1..];
    }
  }

  /** Filter and Reject split a list between them. */
  lemma {:induction false} FilterPartition<T>(xs: seq<T>, p: T -> bool)
    ensures multiset(Filter(xs, p)) + multiset(Reject(xs, p)) == multiset(xs)
    ensures |Filter(xs, p)| + |Reject(xs, p)| == |xs|
  {
    if xs != [] {
      FilterPartition(xs[1..], p);
      assert xs == [xs[0]] + xs[1..];
    }
  }

  /** Filtering with predicates that agree on the list's elements gives the same list. */
  lemma {:induction false} FilterAgree<T>(xs: seq<T>, p: T -> bool, q: T -> bool)
    requires forall z :: z in xs ==> p(z) == q(z)
    ensures Filter(xs, p) == Filter(xs, q)
  {
    if xs != [] {
      assert xs[0] in xs;
      assert forall z :: z in xs[1..] ==> z in xs;
      FilterAgree(xs[1..], p, q);
    }
  }

  /**
   * Removing y from a filtered list is filtering with y left out, when y
   * occurs at most once.
   */
  lemma {:induction false} RemoveFromFilter<T>(xs: seq<T>, p: T -> bool, q: T -> bool, y: T)
    requires multiset(xs)[y] <= 1
    requires !q(y) && forall z :: z != y ==> p(z) == q(z)
    ensures RemoveFirst(Filter(xs, p), y) == Filter(xs, q)
  {
    if xs != [] {
      assert xs == [xs[0]] + xs[1..];
      if xs[0] == y {
        assert y !in xs[1..] by {
          assert multiset(xs)[y] == 1 + multiset(xs[1..])[y];
        }
        FilterAgree(xs[1..], p, q);
        FilterMember(xs[1..], p, y);
        if !p(y) {
          RemoveAbsent(Filter(xs[1..], p), y);
          assert Filter(xs, p) == Filter(xs[1..], p);
        }
        assert Filter(xs, q) == Filter(xs[1..], q);
      } else {
        assert multiset(xs)[y] == multiset(xs[1..])[y];
        RemoveFromFilter(xs[1..], p, q, y);
        var rest := Filter(xs[1..], p);
        assert p(xs[0]) == q(xs[0]);
        if p(xs[0]) {
          assert Filter(xs, p) == [xs[0]] + rest;
          assert ([xs[0]] + rest)[1..] == rest;
          assert RemoveFirst(Filter(xs, p), y) == [xs[0]] + RemoveFirst(rest, y);
          assert Filter(xs, q) == [xs[0]] + Filter(xs[1..], q);
        } else {
          assert Filter(xs, p) == rest;
          assert Filter(xs, q) == Filter(xs[1..], q);
        }
      }
    }
  }

  lemma {:induction false} RemoveAbsent<T>(xs: seq<T>, y: T)
    requires y !in xs
    ensures RemoveFirst(xs, y) == xs
  {
    if xs != [] {
      assert xs[1..] == xs[1..];
      RemoveAbsent(xs[1..], y);
    }
  }

  lemma {:induction false} FilterNoDuplicates<T(!new)>(xs: seq<T>, p: T -> bool)
    requires NoDuplicates(xs)
    ensures NoDuplicates(Filter(xs, p)) && NoDuplicates(Reject(xs, p))
  {
    FilterPartition(xs, p);
    forall y
      ensures multiset(Filter(xs, p))[y] <= 1 && multiset(Reject(xs, p))[y] <= 1
    {
      assert multiset(Filter(xs, p))[y] + multiset(Reject(xs, p))[y] == multiset(xs)[y];
    }
  }

  // ---------------------------------------------------------------------------
  // update_working_hours

  /** The hours one assignment to shift `s` counts for: none for the free shift "-". */
  function ShiftHours(s: ShiftTypeInfo): int
  {
    if s.shiftType.name == FreeShiftName then 0 else DurationHours(s)
  }

  /** The hours of shift `s` on day `d` that employee `pk` was assigned. */
  function SlotHours(work: map<Slot, bool>, pk: int, s: ShiftTypeInfo, d: int): int
  {
    if Worked(work, Slot(pk, s.id, d)) then ShiftHours(s) else 0
  }

  /** The hours employee `pk` was assigned on day `d`, over the given shifts. */
  function DayHours(work: map<Slot, bool>, pk: int, shifts: seq<ShiftTypeInfo>, d: int): int
  {
    if shifts == [] then 0
    else DayHours(work, pk, shifts[..|shifts| - 1], d) + SlotHours(work, pk, shifts[|shifts| - 1], d)
  }

  /** The hours employee `pk` was assigned on days 1..days. */
  function MonthHours(work: map<Slot, bool>, pk: int, shifts: seq<ShiftTypeInfo>, days: nat): int
  {
    if days == 0 then 0 else MonthHours(work, pk, shifts, days - 1) + DayHours(work, pk, shifts, days)
  }

  lemma ScaleSum(c: int, a: int, b: int)
    ensures c * (a + b) == c * a + c * b
  {
  }

  /** `h` hours for each time employee `pk` is listed among the workers. */
  function Credit(workers: seq<Worker>, pk: int, h: int): int
  {
    if workers == [] then 0
    else Credit(workers[..|workers| - 1], pk, h) + (if workers[|workers| - 1].pk == pk then h else 0)
  }

  lemma {:induction false} CreditCount(workers: seq<Worker>, pk: int, h: int)
    ensures Credit(workers, pk, h) == CountPk(workers, pk) * h
  {
    if workers != [] {
      CreditCount(workers[..|workers| - 1], pk, h);
      SchedulingContext.Distribute(CountPk(workers[..|workers| - 1], pk), if workers[|workers| - 1].pk == pk then 1 else 0, h);
    }
  }

  // ---------------------------------------------------------------------------
  // delete_excess_shifts: the order in which excesses are taken

  lemma NoDuplicatesDistinct<T(!new)>(xs: seq<T>, i: int, j: int)
    requires NoDuplicates(xs) && 0 <= i < j < |xs|
    ensures xs[i] != xs[j]
  {
    assert xs == xs[..j] + xs[j..];
    assert xs[i] in xs[..j] && xs[j] in xs[j..];
    assert multiset(xs)[xs[j]] == multiset(xs[..j])[xs[j]] + multiset(xs[j..])[xs[j]];
  }

  /** Whether the solver put the worker on shift s on day d. */
  function OnShift(work: map<Slot, bool>, s: int, d: int): Worker -> bool
  {
    (w: Worker) => Worked(work, Slot(w.pk, s, d))
  }

  /** The employees the solver put on shift s on day d, in the employees' order. */
  function Candidates(work: map<Slot, bool>, workers: seq<Worker>, s: int, d: int): seq<Worker>
  {
    Filter(workers, OnShift(work, s, d))
  }

  /** The workers' job times, each once, in the order they are first met. */
  function DistinctJobTimes(workers: seq<Worker>): seq<int>
  {
    if workers == [] then []
    else
      var r := DistinctJobTimes(workers[..|workers| - 1]);
      if workers[|workers| - 1].jobTime in r then r else r + [workers[|workers| - 1].jobTime]
  }

  lemma {:induction false} DistinctJobTimesFacts(workers: seq<Worker>)
    ensures forall w :: w in workers ==> w.jobTime in DistinctJobTimes(workers)
    ensures forall t :: t in DistinctJobTimes(workers) ==> exists w :: w in workers && w.jobTime == t
    ensures NoDuplicates(DistinctJobTimes(workers))
  {
    if workers != [] {
      var init, last := workers[..|workers| - 1], workers[|workers| - 1];
      DistinctJobTimesFacts(init);
      assert workers == init + [last];
      assert forall w :: w in init ==> w in workers;
    }
  }

  /** The sort key of `sorted(..., reverse=True)` on integers. */
  function Descending(t: int): seq<int>
  {
    [-t]
  }

  /** `sorted(set(ei.job_time for ei in ctx.employees), reverse=True)` */
  function JobTimes(workers: seq<Worker>): seq<int>
  {
    Sort(DistinctJobTimes(workers), Descending)
  }

  /** The job times are exactly the workers' job times, strictly decreasing. */
  lemma JobTimesFacts(workers: seq<Worker>)
    ensures forall w :: w in workers ==> w.jobTime in JobTimes(workers)
    ensures forall t :: t in JobTimes(workers) ==> exists w :: w in workers && w.jobTime == t
    ensures forall i, j :: 0 <= i < j < |JobTimes(workers)| ==> JobTimes(workers)[i] > JobTimes(workers)[j]
  {
    var ds, jts := DistinctJobTimes(workers), JobTimes(workers);
    DistinctJobTimesFacts(workers);
    assert forall t :: t in jts <==> t in ds by {
      assert multiset(jts) == multiset(ds);
      forall t
        ensures t in jts <==> t in ds
      {
        assert t in jts <==> t in multiset(jts);
        assert t in ds <==> t in multiset(ds);
      }
    }
    SortSorted(ds, Descending);
    forall i, j | 0 <= i < j < |jts|
      ensures jts[i] > jts[j]
    {
      LexLessSingleton(-jts[j], -jts[i]);
      NoDuplicatesDistinct(jts, i, j);
    }
  }

  /** `[c.job_time for c in cands].count(t)` */
  function CountJobTime(cands: seq<Worker>, t: int): nat
  {
    if cands == [] then 0 else (if cands[0].jobTime == t then 1 else 0) + CountJobTime(cands[1..], t)
  }

  /** An entry's count vector: how many of its candidates hold each job time. */
  function Profile(cands: seq<Worker>, jts: seq<int>): (v: seq<int>)
    ensures |v| == |jts|
  {
    seq(|jts|, i requires 0 <= i < |jts| => CountJobTime(cands, jts[i]))
  }

  /** Python's `sum` on a list of integers. */
  function Sum(v: seq<int>): int
  {
    if v == [] then 0 else v[0] + Sum(v[1..])
  }

  /** `sum(v) == v[0]`, taken only when v has a first element. */
  predicate FullTimersOnly(v: seq<int>)
  {
    |v| > 0 && Sum(v) == v[0]
  }

  /** Python's list comparison turned around, for `reverse=True` on lists of one length. */
  function Negate(v: seq<int>): (r: seq<int>)
    ensures |r| == |v|
  {
    seq(|v|, i requires 0 <= i < |v| => -v[i])
  }

  /** The keys of `s_excess_shifts`: the excesses, each once, in the order first met. */
  function Keys(excess: seq<Excess>): seq<Excess>
  {
    if excess == [] then []
    else
      var r := Keys(excess[..|excess| - 1]);
      if excess[|excess| - 1] in r then r else r + [excess[|excess| - 1]]
  }

  lemma {:induction false} KeysFacts(excess: seq<Excess>)
    ensures forall x :: x in Keys(excess) <==> x in excess
    ensures NoDuplicates(Keys(excess))
  {
    if excess != [] {
      var init, last := excess[..|excess| - 1], excess[|excess| - 1];
      KeysFacts(init);
      assert excess == init + [last];
    }
  }

  /** The test that puts an excess into `excess_full_timers`. */
  function FullTimerEntry(work: map<Slot, bool>, workers: seq<Worker>, jts: seq<int>): Excess -> bool
  {
    (x: Excess) => FullTimersOnly(Profile(Candidates(work, workers, x.shift, x.day), jts))
  }

  function RestKey(work: map<Slot, bool>, workers: seq<Worker>, jts: seq<int>): Excess -> seq<int>
  {
    (x: Excess) => Negate(Profile(Candidates(work, workers, x.shift, x.day), jts))
  }

  /**
   * The order `delete_excess_shifts` takes the excesses in: those whose
   * candidates all hold the highest job time first, in the order reported,
   * then the others by count vector, largest first. `v[0]` fails with
   * IndexError when there are excesses but no employees.
   */
  function Order(work: map<Slot, bool>, workers: seq<Worker>, excess: seq<Excess>): Result<seq<Excess>, ReconcileError>
  {
    var jts := JobTimes(workers);
    var keys := Keys(excess);
    if keys != [] && jts == [] then Failure(IndexError)
    else Success(Arrange(work, workers, keys))
  }

  /** `excess_full_timers | sorted_excess_rest` */
  function Arrange(work: map<Slot, bool>, workers: seq<Worker>, keys: seq<Excess>): seq<Excess>
  {
    Front(work, workers, keys) + Back(work, workers, keys)
  }

  /** The keys of `excess_full_timers`, in their order. */
  function Front(work: map<Slot, bool>, workers: seq<Worker>, keys: seq<Excess>): seq<Excess>
  {
    Filter(keys, FullTimerEntry(work, workers, JobTimes(workers)))
  }

  /** The keys of `sorted_excess_rest`, in their order. */
  function Back(work: map<Slot, bool>, workers: seq<Worker>, keys: seq<Excess>): seq<Excess>
  {
    Sort(Reject(keys, FullTimerEntry(work, workers, JobTimes(workers))), RestKey(work, workers, JobTimes(workers)))
  }

  /** Every candidate holds the highest job time among the employees. */
  ghost predicate HighestJobTimeOnly(cands: seq<Worker>, workers: seq<Worker>)
  {
    forall c, w :: c in cands && w in workers ==> c.jobTime >= w.jobTime
  }

  lemma {:induction false} CountJobTimeZero(cands: seq<Worker>, t: int)
    ensures CountJobTime(cands, t) == 0 <==> forall c :: c in cands ==> c.jobTime != t
  {
    if cands != [] {
      CountJobTimeZero(cands[1..], t);
      assert cands == [cands[0]] + cands[1..];
    }
  }

  lemma {:induction false} SumZero(v: seq<int>)
    requires forall i :: 0 <= i < |v| ==> v[i] >= 0
    ensures Sum(v) == 0 <==> forall i :: 0 <= i < |v| ==> v[i] == 0
  {
    if v != [] {
      SumZero(v[1..]);
      assert forall i :: 1 <= i < |v| ==> v[i] == v[1..][i - 1];
      if Sum(v) == 0 {
        SumNonNegative(v[1..]);
      }
    }
  }

  lemma {:induction false} SumNonNegative(v: seq<int>)
    requires forall i :: 0 <= i < |v| ==> v[i] >= 0
    ensures Sum(v) >= 0
  {
    if v != [] {
      SumNonNegative(v[1..]);
    }
  }

  /** `sum(v) == v[0]` says that no candidate holds any job time but the first. */
  lemma FullTimersOnlyIff(cands: seq<Worker>, jts: seq<int>)
    requires jts != []
    ensures FullTimersOnly(Profile(cands, jts)) <==>
      forall i :: 1 <= i < |jts| ==> CountJobTime(cands, jts[i]) == 0
  {
    var v := Profile(cands, jts);
    var tail := v[1..];
    assert Sum(v) == v[0] + Sum(tail);
    assert forall i :: 0 <= i < |tail| ==> tail[i] == CountJobTime(cands, jts[i + 1]);
    SumZero(tail);
    if forall i :: 1 <= i < |jts| ==> CountJobTime(cands, jts[i]) == 0 {
      assert forall i :: 0 <= i < |tail| ==> tail[i] == 0;
    }
    if Sum(tail) == 0 {
      forall i | 1 <= i < |jts|
        ensures CountJobTime(cands, jts[i]) == 0
      {
        assert tail[i - 1] == 0;
      }
    }
  }

  /**
   * `sum(v) == v[0]` holds of an excess's count vector exactly when every
   * candidate holds the highest job time.
   */
  lemma FullTimerIff(cands: seq<Worker>, workers: seq<Worker>)
    requires workers != [] && forall c :: c in cands ==> c in workers
    ensures FullTimersOnly(Profile(cands, JobTimes(workers))) <==> HighestJobTimeOnly(cands, workers)
  {
    var jts := JobTimes(workers);
    JobTimesFacts(workers);
    assert workers[0].jobTime in jts;
    FullTimersOnlyIff(cands, jts);
    if FullTimersOnly(Profile(cands, jts)) {
      forall c, w | c in cands && w in workers
        ensures c.jobTime >= w.jobTime
      {
        OnlyFirstJobTime(cands, jts, c);
        var m :| 0 <= m < |jts| && jts[m] == w.jobTime;
        assert m == 0 || jts[0] > jts[m];
      }
    }
    if HighestJobTimeOnly(cands, workers) {
      assert jts[0] in jts;
      var w :| w in workers && w.jobTime == jts[0];
      forall i | 1 <= i < |jts|
        ensures CountJobTime(cands, jts[i]) == 0
      {
        assert forall c :: c in cands ==> c.jobTime >= w.jobTime > jts[i];
        CountJobTimeZero(cands, jts[i]);
      }
    }
  }

  lemma OnlyFirstJobTime(cands: seq<Worker>, jts: seq<int>, c: Worker)
    requires c in cands && c.jobTime in jts
    requires forall i :: 1 <= i < |jts| ==> CountJobTime(cands, jts[i]) == 0
    ensures c.jobTime == jts[0]
  {
    var k :| 0 <= k < |jts| && jts[k] == c.jobTime;
    if k > 0 {
      CountJobTimeZero(cands, jts[k]);
    }
  }

  lemma {:induction false} NegateLexLess(a: seq<int>, b: seq<int>)
    requires |a| == |b|
    ensures LexLess(Negate(a), Negate(b)) <==> LexLess(b, a)
  {
    if a != [] {
      assert Negate(a)[1..] == Negate(a[1..]);
      assert Negate(b)[1..] == Negate(b[1..]);
      NegateLexLess(a[1..], b[1..]);
    }
  }

  lemma {:induction false} CandidatesFromWorkers(work: map<Slot, bool>, workers: seq<Worker>, s: int, d: int)
    ensures forall c :: c in Candidates(work, workers, s, d) <==> c in workers && Worked(work, Slot(c.pk, s, d))
  {
    forall c
      ensures c in Candidates(work, workers, s, d) <==> c in workers && Worked(work, Slot(c.pk, s, d))
    {
      FilterMember(workers, OnShift(work, s, d), c);
    }
  }

  /**
   * The order fails only when there are excesses and no employees, and
   * otherwise holds each reported excess exactly once.
   */
  lemma OrderFacts(work: map<Slot, bool>, workers: seq<Worker>, excess: seq<Excess>)
    ensures Order(work, workers, excess).Failure? <==> excess != [] && workers == []
    ensures Order(work, workers, excess).Success? ==>
      var order := Order(work, workers, excess).value;
      (forall x :: x in order <==> x in excess) && NoDuplicates(order)
  {
    var keys := Keys(excess);
    KeysFacts(excess);
    JobTimesEmpty(workers);
    assert excess != [] ==> excess[0] in keys;
    if Order(work, workers, excess).Success? {
      var order := Order(work, workers, excess).value;
      assert order == Arrange(work, workers, keys);
      ArrangePermutes(work, workers, keys);
      assert multiset(order) == multiset(keys);
      forall x
        ensures x in order <==> x in excess
      {
        assert x in order <==> x in multiset(order);
        assert x in keys <==> x in multiset(keys);
      }
    }
  }

  /** There are job times exactly when there are employees. */
  lemma JobTimesEmpty(workers: seq<Worker>)
    ensures JobTimes(workers) == [] <==> workers == []
  {
    JobTimesFacts(workers);
    if workers != [] {
      assert workers[0].jobTime in JobTimes(workers);
    }
  }

  /** Arranging the keys only reorders them. */
  lemma ArrangePermutes(work: map<Slot, bool>, workers: seq<Worker>, keys: seq<Excess>)
    ensures multiset(Arrange(work, workers, keys)) == multiset(keys)
  {
    var full := FullTimerEntry(work, workers, JobTimes(workers));
    FilterPartition(keys, full);
    assert multiset(Back(work, workers, keys)) == multiset(Reject(keys, full));
  }

  /** The excesses taken first are those whose candidates all hold the highest job time. */
  lemma FrontFacts(work: map<Slot, bool>, workers: seq<Worker>, keys: seq<Excess>)
    ensures forall x :: x in Front(work, workers, keys) <==>
      x in keys && workers != [] && HighestJobTimeOnly(Candidates(work, workers, x.shift, x.day), workers)
  {
    forall x
      ensures x in Front(work, workers, keys) <==>
        x in keys && workers != [] && HighestJobTimeOnly(Candidates(work, workers, x.shift, x.day), workers)
    {
      FilterMember(keys, FullTimerEntry(work, workers, JobTimes(workers)), x);
      if workers != [] {
        EntryFullTimerIff(work, workers, x.shift, x.day);
      }
    }
  }

  /**
   * The excesses taken after them are the others, in descending order of
   * count vector.
   */
  lemma BackFacts(work: map<Slot, bool>, workers: seq<Worker>, keys: seq<Excess>)
    requires workers != []
    ensures forall x :: x in Back(work, workers, keys) <==>
      x in keys && !HighestJobTimeOnly(Candidates(work, workers, x.shift, x.day), workers)
    ensures var back := Back(work, workers, keys);
      forall p, q :: 0 <= p < q < |back| ==>
        !LexLess(Profile(Candidates(work, workers, back[p].shift, back[p].day), JobTimes(workers)),
                 Profile(Candidates(work, workers, back[q].shift, back[q].day), JobTimes(workers)))
  {
    var jts := JobTimes(workers);
    var full := FullTimerEntry(work, workers, jts);
    var r := Reject(keys, full);
    var back := Back(work, workers, keys);
    forall x
      ensures x in back <==> x in keys && !HighestJobTimeOnly(Candidates(work, workers, x.shift, x.day), workers)
    {
      assert x in back <==> x in multiset(back);
      assert x in r <==> x in multiset(r);
      RejectMember(keys, full, x);
      EntryFullTimerIff(work, workers, x.shift, x.day);
    }
    forall p, q | 0 <= p < q < |back|
      ensures !LexLess(Profile(Candidates(work, workers, back[p].shift, back[p].day), jts),
                       Profile(Candidates(work, workers, back[q].shift, back[q].day), jts))
    {
      RestPair(work, workers, r, back, p, q);
    }
  }

  /** Two excesses of the sorted rest: the earlier's count vector is not the smaller. */
  lemma RestPair(work: map<Slot, bool>, workers: seq<Worker>, r: seq<Excess>, b: seq<Excess>, p: int, q: int)
    requires b == Sort(r, RestKey(work, workers, JobTimes(workers)))
    requires 0 <= p < q < |b|
    ensures !LexLess(Profile(Candidates(work, workers, b[p].shift, b[p].day), JobTimes(workers)),
                     Profile(Candidates(work, workers, b[q].shift, b[q].day), JobTimes(workers)))
  {
    var jts := JobTimes(workers);
    SortSorted(r, RestKey(work, workers, jts));
    NegateLexLess(Profile(Candidates(work, workers, b[q].shift, b[q].day), jts),
                  Profile(Candidates(work, workers, b[p].shift, b[p].day), jts));
  }

  lemma EntryFullTimerIff(work: map<Slot, bool>, workers: seq<Worker>, s: int, d: int)
    requires workers != []
    ensures FullTimersOnly(Profile(Candidates(work, workers, s, d), JobTimes(workers))) <==>
      HighestJobTimeOnly(Candidates(work, workers, s, d), workers)
  {
    CandidatesFromWorkers(work, workers, s, d);
    FullTimerIff(Candidates(work, workers, s, d), workers);
  }

  // ---------------------------------------------------------------------------
  // delete_excess_shifts: taking away one excess

  /** The two tables `delete_excess_shifts` changes: the solution and the hours tally. */
  datatype Tables = Tables(work: map<Slot, bool>, workTime: map<int, int>)

  /** Where a run ends: the tables, and the exception raised, if one was. */
  datatype Outcome = Outcome(tables: Tables, error: Option<ReconcileError>)

  /** No two employees share a primary key. */
  ghost predicate UniquePks(workers: seq<Worker>)
  {
    forall i, j :: 0 <= i < |workers| && 0 <= j < |workers| && workers[i].pk == workers[j].pk ==> i == j
  }

  /** The outer sort key: how far the employee's tally is above their job time. */
  function Surplus(workTime: map<int, int>): Worker -> seq<int>
  {
    (w: Worker) => [WorkTimeOf(workTime, w.pk) - w.jobTime]
  }

  /** The inner sort key: larger job times first. */
  function LargerJobTimeFirst(w: Worker): seq<int>
  {
    [-w.jobTime]
  }

  /** The test of `full_timers`: the tally is above the job time. */
  function OverJobTime(workTime: map<int, int>): Worker -> bool
  {
    (w: Worker) => WorkTimeOf(workTime, w.pk) > w.jobTime
  }

  /** The candidates for shift s on day d, sorted by surplus, then larger job time first. */
  function Ranked(t: Tables, workers: seq<Worker>, s: int, d: int): seq<Worker>
  {
    Sort(Sort(Candidates(t.work, workers, s, d), LargerJobTimeFirst), Surplus(t.workTime))
  }

  /** `full_timers` */
  function OverTargets(t: Tables, workers: seq<Worker>, s: int, d: int): seq<Worker>
  {
    Filter(Ranked(t, workers, s, d), OverJobTime(t.workTime))
  }

  /** Step 1 deletes the full timers' shifts unless every candidate is one. */
  function FirstDeletions(t: Tables, workers: seq<Worker>, s: int, d: int): seq<Worker>
  {
    if OverTargets(t, workers, s, d) != Ranked(t, workers, s, d) then OverTargets(t, workers, s, d) else []
  }

  /** The candidates left for step 2. */
  function Remaining(t: Tables, workers: seq<Worker>, s: int, d: int): seq<Worker>
  {
    if OverTargets(t, workers, s, d) != Ranked(t, workers, s, d)
    then Reject(Ranked(t, workers, s, d), OverJobTime(t.workTime))
    else Ranked(t, workers, s, d)
  }

  /** `get_duration_in_hours` of shift s; 0 when there is none, which no deletion then reads. */
  function ShiftDuration(shifts: seq<ShiftTypeInfo>, s: int): int
  {
    match SchedulingContext.ShiftInfoById(shifts, s)
    case Some(info) => DurationHours(info)
    case None => 0
  }

  /** One deletion: the employee leaves shift s on day d for the free shift, and their tally loses its hours. */
  function Unassign(t: Tables, w: Worker, s: int, d: int, hours: int): Tables
  {
    Tables(t.work[Slot(w.pk, s, d) := false][Slot(w.pk, FreeShiftId, d) := true],
           t.workTime[w.pk := WorkTimeOf(t.workTime, w.pk) - hours])
  }

  /** The deletions for the employees listed, in their order. */
  function UnassignAll(t: Tables, ws: seq<Worker>, s: int, d: int, hours: int): Tables
  {
    if ws == [] then t
    else Unassign(UnassignAll(t, ws[..|ws| - 1], s, d, hours), ws[|ws| - 1], s, d, hours)
  }

  /**
   * What `delete_excess_shifts` does with the excess x: step 1 deletes the
   * shifts of the candidates above their job time, unless all of them are;
   * step 2 keeps the first remaining candidate (IndexError when there is
   * none) and deletes the others' shifts; what is left of the count must
   * be 0. A deletion of an unknown shift raises StopIteration before it
   * changes anything; a count left above 0 fails while formatting its
   * message, with StopIteration or, as ShiftTypeInfo has no `name`,
   * AttributeError.
   */
  function Settle(t: Tables, workers: seq<Worker>, shifts: seq<ShiftTypeInfo>, x: Excess): Outcome
  {
    var first := FirstDeletions(t, workers, x.shift, x.day);
    if first != [] && SchedulingContext.ShiftInfoById(shifts, x.shift).None? then Outcome(t, Some(StopIteration))
    else
      SettleRest(UnassignAll(t, first, x.shift, x.day, ShiftDuration(shifts, x.shift)),
                 Remaining(t, workers, x.shift, x.day), shifts, x, x.count - |first|)
  }

  /**
   * What step 1 leaves behind: StopIteration with the tables untouched when
   * some candidate above its job time must go but the shift is unknown;
   * otherwise the tables without the first deletions, the remaining
   * candidates and the count less the deletions made.
   */
  ghost predicate StepOne(t: Tables, t1: Tables, workers: seq<Worker>, shifts: seq<ShiftTypeInfo>, x: Excess,
                          candidates: seq<Worker>, v: int, err: Option<ReconcileError>)
  {
    var first := FirstDeletions(t, workers, x.shift, x.day);
    (err.Some? <==> first != [] && SchedulingContext.ShiftInfoById(shifts, x.shift).None?) &&
    (err.Some? ==> err == Some(StopIteration) && t1 == t) &&
    (err.None? ==>
      t1 == UnassignAll(t, first, x.shift, x.day, ShiftDuration(shifts, x.shift)) &&
      candidates == Remaining(t, workers, x.shift, x.day) && v == x.count - |first|)
  }

  /** Settling an excess is step 1 followed, when it raises nothing, by step 2 on what step 1 leaves. */
  lemma SettleAfterStepOne(t: Tables, t1: Tables, workers: seq<Worker>, shifts: seq<ShiftTypeInfo>, x: Excess,
                           candidates: seq<Worker>, v: int, err: Option<ReconcileError>)
    requires StepOne(t, t1, workers, shifts, x, candidates, v, err)
    ensures err.Some? ==> Settle(t, workers, shifts, x) == Outcome(t1, err)
    ensures err.None? ==> Settle(t, workers, shifts, x) == SettleRest(t1, candidates, shifts, x, v)
  {
  }

  /** Step 2 of `delete_excess_shifts` and the final check, with `left` of the count still to delete. */
  function SettleRest(t: Tables, remaining: seq<Worker>, shifts: seq<ShiftTypeInfo>, x: Excess, left: int): Outcome
  {
    var known := SchedulingContext.ShiftInfoById(shifts, x.shift).Some?;
    if remaining == [] then Outcome(t, Some(IndexError))
    else if |remaining| > 1 && !known then Outcome(t, Some(StopIteration))
    else
      var t2 := UnassignAll(t, remaining[1..], x.shift, x.day, ShiftDuration(shifts, x.shift));
      var rest := left - (|remaining| - 1);
      if rest < 0 then Outcome(t2, Some(ValueError))
      else if rest > 0 then Outcome(t2, Some(if known then AttributeError else StopIteration))
      else Outcome(t2, None)
  }

  /** The excesses taken in turn, stopping at the first exception. */
  function Process(t: Tables, workers: seq<Worker>, shifts: seq<ShiftTypeInfo>, order: seq<Excess>): Outcome
  {
    if order == [] then Outcome(t, None)
    else
      var o := Process(t, workers, shifts, order[..|order| - 1]);
      if o.error.Some? then o else Settle(o.tables, workers, shifts, order[|order| - 1])
  }

  /** `delete_excess_shifts` */
  function DeleteExcess(t: Tables, workers: seq<Worker>, shifts: seq<ShiftTypeInfo>, excess: seq<Excess>): Outcome
  {
    match Order(t.work, workers, excess)
    case Failure(e) => Outcome(t, Some(e))
    case Success(order) => Process(t, workers, shifts, order)
  }

  /** Once an excess fails, the later ones are not taken. */
  lemma {:induction false} ProcessStops(t: Tables, workers: seq<Worker>, shifts: seq<ShiftTypeInfo>, order: seq<Excess>, n: nat)
    requires n <= |order| && Process(t, workers, shifts, order[..n]).error.Some?
    ensures Process(t, workers, shifts, order) == Process(t, workers, shifts, order[..n])
    decreases |order| - n
  {
    if n < |order| {
      assert order[..n + 1][..n] == order[..n];
      ProcessStops(t, workers, shifts, order, n + 1);
    } else {
      assert order[..n] == order;
    }
  }

  lemma {:induction false} UniqueNoDuplicates(workers: seq<Worker>)
    requires UniquePks(workers)
    ensures NoDuplicates(workers)
  {
    if workers != [] {
      var tail := workers[1..];
      assert UniquePks(tail) by {
        forall i, j | 0 <= i < |tail| && 0 <= j < |tail| && tail[i].pk == tail[j].pk
          ensures i == j
        {
          assert workers[i + 1].pk == workers[j + 1].pk;
        }
      }
      UniqueNoDuplicates(tail);
      assert workers == [workers[0]] + tail;
      forall k | 0 <= k < |tail|
        ensures tail[k].pk != workers[0].pk
      {
        assert tail[k] == workers[k + 1];
      }
      assert workers[0] !in tail;
    }
  }

  lemma {:induction false} FilterKeepsAll<T>(xs: seq<T>, p: T -> bool)
    requires forall z :: z in xs ==> p(z)
    ensures Filter(xs, p) == xs
  {
    if xs != [] {
      assert xs[0] in xs;
      assert forall z :: z in xs[1..] ==> z in xs;
      FilterKeepsAll(xs[1..], p);
    }
  }

  lemma {:induction false} FilterIsReject<T>(xs: seq<T>, p: T -> bool, q: T -> bool)
    requires forall z :: q(z) == !p(z)
    ensures Filter(xs, q) == Reject(xs, p)
  {
    if xs != [] {
      FilterIsReject(xs[1..], p, q);
    }
  }

  /** The ranked candidates are employees on the shift, each once. */
  lemma RankedFacts(t: Tables, workers: seq<Worker>, s: int, d: int)
    requires UniquePks(workers)
    ensures forall z :: z in Ranked(t, workers, s, d) ==> z in workers
    ensures NoDuplicates(Ranked(t, workers, s, d))
  {
    var cands := Candidates(t.work, workers, s, d);
    var ranked := Ranked(t, workers, s, d);
    CandidatesFromWorkers(t.work, workers, s, d);
    UniqueNoDuplicates(workers);
    FilterNoDuplicates(workers, OnShift(t.work, s, d));
    assert multiset(ranked) == multiset(cands);
    forall z | z in ranked
      ensures z in workers
    {
      assert z in multiset(ranked);
    }
  }

  /** The test that keeps an employee through the removals still to come. */
  function Pending(workTime: map<int, int>, rem: seq<Worker>): Worker -> bool
  {
    (y: Worker) => WorkTimeOf(workTime, y.pk) <= y.jobTime || y in rem
  }

  /** `for ft in full_timers: candidates.remove(ft)` */
  method DropFullTimers(ranked: seq<Worker>, fullTimers: seq<Worker>, ghost workTime: map<int, int>) returns (candidates: seq<Worker>)
    requires NoDuplicates(ranked) && fullTimers == Filter(ranked, OverJobTime(workTime))
    ensures candidates == Reject(ranked, OverJobTime(workTime))
  {
    PendingAll(ranked, workTime);
    candidates := ranked;
    var i := 0;
    while i < |fullTimers|
      invariant 0 <= i <= |fullTimers|
      invariant candidates == Filter(ranked, Pending(workTime, fullTimers[i..]))
    {
      DropOne(ranked, workTime, i);
      candidates := RemoveFirst(candidates, fullTimers[i]);
      i := i + 1;
    }
    FilterIsReject(ranked, OverJobTime(workTime), Pending(workTime, fullTimers[i..]));
  }

  /** Before any removal, every candidate is still pending. */
  lemma PendingAll(ranked: seq<Worker>, workTime: map<int, int>)
    ensures Filter(ranked, Pending(workTime, Filter(ranked, OverJobTime(workTime)))) == ranked
  {
    var fullTimers := Filter(ranked, OverJobTime(workTime));
    forall z | z in ranked
      ensures Pending(workTime, fullTimers)(z)
    {
      FilterMember(ranked, OverJobTime(workTime), z);
    }
    FilterKeepsAll(ranked, Pending(workTime, fullTimers));
  }

  /** Removing full timer i leaves the candidates pending for the full timers after it. */
  lemma DropOne(ranked: seq<Worker>, workTime: map<int, int>, i: nat)
    requires NoDuplicates(ranked) && i < |Filter(ranked, OverJobTime(workTime))|
    ensures var fullTimers := Filter(ranked, OverJobTime(workTime));
      RemoveFirst(Filter(ranked, Pending(workTime, fullTimers[i..])), fullTimers[i]) ==
        Filter(ranked, Pending(workTime, fullTimers[i + 1..]))
  {
    var fullTimers := Filter(ranked, OverJobTime(workTime));
    FilterNoDuplicates(ranked, OverJobTime(workTime));
    var y := fullTimers[i];
    FilterMember(ranked, OverJobTime(workTime), y);
    assert fullTimers[i..] == [y] + fullTimers[i + 1..];
    assert y !in fullTimers[i + 1..] by {
      forall k | i + 1 <= k < |fullTimers|
        ensures fullTimers[k] != y
      {
        NoDuplicatesDistinct(fullTimers, i, k);
      }
    }
    RemoveFromFilter(ranked, Pending(workTime, fullTimers[i..]), Pending(workTime, fullTimers[i + 1..]), y);
  }

  // ---------------------------------------------------------------------------
  // delete_excess_shifts: what settling one excess achieves

  /** Step 1 and step 2 share the ranked candidates between them. */
  lemma SplitRanked(t: Tables, workers: seq<Worker>, s: int, d: int)
    ensures multiset(FirstDeletions(t, workers, s, d)) + multiset(Remaining(t, workers, s, d)) == multiset(Ranked(t, workers, s, d))
    ensures |FirstDeletions(t, workers, s, d)| + |Remaining(t, workers, s, d)| == |Ranked(t, workers, s, d)|
    ensures Ranked(t, workers, s, d) != [] ==> Remaining(t, workers, s, d) != []
  {
    var r := Ranked(t, workers, s, d);
    var over := OverJobTime(t.workTime);
    if OverTargets(t, workers, s, d) != r {
      FilterPartition(r, over);
      if Reject(r, over) == [] {
        forall z | z in r
          ensures over(z)
        {
          RejectMember(r, over, z);
        }
        FilterKeepsAll(r, over);
      }
    }
  }

  /** Some candidate's tally is within their job time. */
  ghost predicate AnyWithinJobTime(workTime: map<int, int>, cands: seq<Worker>)
  {
    exists c :: c in cands && !OverJobTime(workTime)(c)
  }

  /**
   * Step 1 takes the shift from exactly the candidates above their job time,
   * provided some candidate is within it; step 2 starts from the others, or
   * from every candidate when all are above it.
   */
  lemma StepOneFacts(t: Tables, workers: seq<Worker>, s: int, d: int)
    ensures var cands := Candidates(t.work, workers, s, d);
      forall w :: w in FirstDeletions(t, workers, s, d) <==>
        w in cands && OverJobTime(t.workTime)(w) && AnyWithinJobTime(t.workTime, cands)
    ensures var cands := Candidates(t.work, workers, s, d);
      forall w :: w in Remaining(t, workers, s, d) <==>
        w in cands && (!OverJobTime(t.workTime)(w) || !AnyWithinJobTime(t.workTime, cands))
  {
    var cands := Candidates(t.work, workers, s, d);
    var r := Ranked(t, workers, s, d);
    var over := OverJobTime(t.workTime);
    assert multiset(r) == multiset(cands);
    assert forall w :: w in r <==> w in cands by {
      forall w
        ensures w in r <==> w in cands
      {
        assert w in r <==> w in multiset(r);
      }
    }
    FilterFacts(r, over);
    RejectFacts(r, over);
    if AnyWithinJobTime(t.workTime, cands) {
      var c :| c in cands && !over(c);
      assert c !in OverTargets(t, workers, s, d);
      assert OverTargets(t, workers, s, d) != r;
    } else {
      FilterKeepsAll(r, over);
    }
  }

  /**
   * An excess is settled without an exception exactly when the employees on
   * the shift outnumber the reported excess by one; an unknown shift is
   * tolerated only when nobody loses it. Otherwise: no employee on the shift
   * raises IndexError, too small a count ValueError, and too large a count
   * AttributeError.
   */
  lemma SettleSucceeds(t: Tables, workers: seq<Worker>, shifts: seq<ShiftTypeInfo>, x: Excess)
    ensures var n := |Candidates(t.work, workers, x.shift, x.day)|;
      Settle(t, workers, shifts, x).error.None? <==>
        n >= 1 && x.count == n - 1 && (n == 1 || SchedulingContext.ShiftInfoById(shifts, x.shift).Some?)
    ensures Candidates(t.work, workers, x.shift, x.day) == [] ==> Settle(t, workers, shifts, x).error == Some(IndexError)
    ensures var n := |Candidates(t.work, workers, x.shift, x.day)|;
      n >= 1 && SchedulingContext.ShiftInfoById(shifts, x.shift).Some? ==>
        (x.count < n - 1 ==> Settle(t, workers, shifts, x).error == Some(ValueError)) &&
        (x.count > n - 1 ==> Settle(t, workers, shifts, x).error == Some(AttributeError))
  {
    var first := FirstDeletions(t, workers, x.shift, x.day);
    var rem := Remaining(t, workers, x.shift, x.day);
    SplitRanked(t, workers, x.shift, x.day);
    if !(first != [] && SchedulingContext.ShiftInfoById(shifts, x.shift).None?) {
      var t1 := UnassignAll(t, first, x.shift, x.day, ShiftDuration(shifts, x.shift));
      assert Settle(t, workers, shifts, x) == SettleRest(t1, rem, shifts, x, x.count - |first|);
    }
  }

  /** The deletions for ws take shift s on day d from exactly the employees listed, and give each the free shift. */
  lemma {:induction false} UnassignAllWork(t: Tables, ws: seq<Worker>, s: int, d: int, hours: int, pk: int)
    requires s != FreeShiftId
    ensures Worked(UnassignAll(t, ws, s, d, hours).work, Slot(pk, s, d)) <==>
      Worked(t.work, Slot(pk, s, d)) && forall w :: w in ws ==> w.pk != pk
    ensures (exists w :: w in ws && w.pk == pk) ==> Worked(UnassignAll(t, ws, s, d, hours).work, Slot(pk, FreeShiftId, d))
  {
    if ws != [] {
      var init := ws[..|ws| - 1];
      UnassignAllWork(t, init, s, d, hours, pk);
      assert ws == init + [ws[|ws| - 1]];
    }
  }

  /** Every slot other than shift s and the free shift on day d of a listed employee keeps its value. */
  lemma {:induction false} UnassignAllOthers(t: Tables, ws: seq<Worker>, s: int, d: int, hours: int, slot: Slot)
    requires slot.day != d || (slot.shift != s && slot.shift != FreeShiftId) || forall w :: w in ws ==> w.pk != slot.pk
    ensures slot in UnassignAll(t, ws, s, d, hours).work <==> slot in t.work
    ensures slot in t.work ==> UnassignAll(t, ws, s, d, hours).work[slot] == t.work[slot]
  {
    if ws != [] {
      var init := ws[..|ws| - 1];
      assert forall w :: w in init ==> w in ws;
      UnassignAllOthers(t, init, s, d, hours, slot);
    }
  }

  /** Each deletion lowers the employee's tally by the shift's hours, and no other tally changes. */
  lemma {:induction false} UnassignAllTime(t: Tables, ws: seq<Worker>, s: int, d: int, hours: int, pk: int)
    ensures WorkTimeOf(UnassignAll(t, ws, s, d, hours).workTime, pk) == WorkTimeOf(t.workTime, pk) - CountPk(ws, pk) * hours
  {
    if ws != [] {
      var init := ws[..|ws| - 1];
      UnassignAllTime(t, init, s, d, hours, pk);
      SchedulingContext.Distribute(CountPk(init, pk), if ws[|ws| - 1].pk == pk then 1 else 0, hours);
    }
  }

  /** Two listed employees with the same primary key are the same employee. */
  lemma SamePk(workers: seq<Worker>, z: Worker, w: Worker)
    requires UniquePks(workers) && z in workers && w in workers && z.pk == w.pk
    ensures z == w
  {
    var i :| 0 <= i < |workers| && workers[i] == z;
    var j :| 0 <= j < |workers| && workers[j] == w;
  }

  /** With every element once, the head of `rem` is the one element of r outside `first` and `rem[1..]`. */
  lemma OnlyHeadLeft(first: seq<Worker>, rem: seq<Worker>, r: seq<Worker>, w: Worker)
    requires multiset(first) + multiset(rem) == multiset(r) && NoDuplicates(r) && rem != []
    ensures w in r && w !in first && w !in rem[1..] <==> w == rem[0]
  {
    assert rem == [rem[0]] + rem[1..];
    assert multiset(r)[w] == multiset(first)[w] + multiset(rem[1..])[w] + (if w == rem[0] then 1 else 0);
    assert multiset(r)[w] <= 1;
    assert w in r <==> multiset(r)[w] > 0;
    assert w in first <==> multiset(first)[w] > 0;
    assert w in rem[1..] <==> multiset(rem[1..])[w] > 0;
  }

  /** A listed employee with the primary key of one of the candidates in ws is that candidate. */
  lemma PkAmong(workers: seq<Worker>, ws: seq<Worker>, w: Worker)
    requires UniquePks(workers) && w in workers && forall z :: z in ws ==> z in workers
    ensures (forall z :: z in ws ==> z.pk != w.pk) <==> w !in ws
  {
    forall z | z in ws && z.pk == w.pk
      ensures z == w
    {
      SamePk(workers, z, w);
    }
  }

  /**
   * Deleting the shift from `first` and from all of `rem` but its head
   * leaves it with exactly that head, when `first` and `rem` share out the
   * employees on the shift, each once.
   */
  lemma KeepOnlyHead(t: Tables, workers: seq<Worker>, first: seq<Worker>, rem: seq<Worker>, r: seq<Worker>, s: int, d: int, hours: int)
    requires UniquePks(workers) && s != FreeShiftId
    requires multiset(first) + multiset(rem) == multiset(r) && NoDuplicates(r) && rem != []
    requires forall z :: z in r ==> z in workers
    requires forall w :: w in workers ==> (w in r <==> Worked(t.work, Slot(w.pk, s, d)))
    ensures forall w :: w in workers ==>
      (Worked(UnassignAll(UnassignAll(t, first, s, d, hours), rem[1..], s, d, hours).work, Slot(w.pk, s, d)) <==> w == rem[0])
  {
    var t1 := UnassignAll(t, first, s, d, hours);
    assert forall z :: z in first ==> z in r by {
      forall z | z in first
        ensures z in r
      {
        assert multiset(r)[z] == multiset(first)[z] + multiset(rem)[z];
        assert z in multiset(first);
        assert z in multiset(r);
      }
    }
    assert forall z :: z in rem[1..] ==> z in r by {
      forall z | z in rem[1..]
        ensures z in r
      {
        assert multiset(r)[z] == multiset(first)[z] + multiset(rem)[z];
        assert rem == [rem[0]] + rem[1..];
        assert z in multiset(rem);
        assert z in multiset(r);
      }
    }
    forall w | w in workers
      ensures Worked(UnassignAll(t1, rem[1..], s, d, hours).work, Slot(w.pk, s, d)) <==> w == rem[0]
    {
      UnassignAllWork(t1, rem[1..], s, d, hours, w.pk);
      UnassignAllWork(t, first, s, d, hours, w.pk);
      PkAmong(workers, first, w);
      PkAmong(workers, rem[1..], w);
      OnlyHeadLeft(first, rem, r, w);
    }
  }

  /** A settled excess leaves the tables as the deletions of step 1 and then of step 2 make them. */
  lemma SettleTables(t: Tables, workers: seq<Worker>, shifts: seq<ShiftTypeInfo>, x: Excess)
    requires Settle(t, workers, shifts, x).error.None?
    ensures Remaining(t, workers, x.shift, x.day) != []
    ensures var hours := ShiftDuration(shifts, x.shift);
      Settle(t, workers, shifts, x).tables ==
        UnassignAll(UnassignAll(t, FirstDeletions(t, workers, x.shift, x.day), x.shift, x.day, hours),
                    Remaining(t, workers, x.shift, x.day)[1..], x.shift, x.day, hours)
  {
    var first := FirstDeletions(t, workers, x.shift, x.day);
    var rem := Remaining(t, workers, x.shift, x.day);
    var t1 := UnassignAll(t, first, x.shift, x.day, ShiftDuration(shifts, x.shift));
    assert Settle(t, workers, shifts, x) == SettleRest(t1, rem, shifts, x, x.count - |first|);
  }

  /** The ranked candidates are the employees on the shift, each once, shared out between step 1 and step 2. */
  lemma RankedShare(t: Tables, workers: seq<Worker>, s: int, d: int)
    requires UniquePks(workers)
    ensures multiset(FirstDeletions(t, workers, s, d)) + multiset(Remaining(t, workers, s, d)) == multiset(Ranked(t, workers, s, d))
    ensures NoDuplicates(Ranked(t, workers, s, d))
    ensures forall z :: z in Ranked(t, workers, s, d) ==> z in workers
    ensures forall w :: w in workers ==> (w in Ranked(t, workers, s, d) <==> Worked(t.work, Slot(w.pk, s, d)))
  {
    var r := Ranked(t, workers, s, d);
    var cands := Candidates(t.work, workers, s, d);
    SplitRanked(t, workers, s, d);
    RankedFacts(t, workers, s, d);
    CandidatesFromWorkers(t.work, workers, s, d);
    assert multiset(r) == multiset(cands);
    forall w | w in workers
      ensures w in r <==> Worked(t.work, Slot(w.pk, s, d))
    {
      assert w in r <==> w in multiset(r);
    }
  }

  /**
   * When an excess is settled without an exception, exactly one of the
   * employees the solver put on the shift keeps it: the head of the
   * candidates left for step 2.
   */
  lemma SettleKeepsOne(t: Tables, workers: seq<Worker>, shifts: seq<ShiftTypeInfo>, x: Excess)
    requires UniquePks(workers) && x.shift != FreeShiftId
    requires Settle(t, workers, shifts, x).error.None?
    ensures Remaining(t, workers, x.shift, x.day) != []
    ensures var keeper := Remaining(t, workers, x.shift, x.day)[0];
      keeper in Candidates(t.work, workers, x.shift, x.day) &&
      forall w :: w in workers ==>
        (Worked(Settle(t, workers, shifts, x).tables.work, Slot(w.pk, x.shift, x.day)) <==> w == keeper)
  {
    var s, d := x.shift, x.day;
    var rem := Remaining(t, workers, s, d);
    SettleTables(t, workers, shifts, x);
    StepOneFacts(t, workers, s, d);
    assert rem[0] in rem;
    RankedShare(t, workers, s, d);
    KeepOnlyHead(t, workers, FirstDeletions(t, workers, s, d), rem, Ranked(t, workers, s, d), s, d, ShiftDuration(shifts, s));
  }

  /** w0 ranks no later than w: a smaller surplus, or the same surplus and a job time at least as large. */
  predicate RanksBefore(workTime: map<int, int>, w0: Worker, w: Worker)
  {
    var a, b := WorkTimeOf(workTime, w0.pk) - w0.jobTime, WorkTimeOf(workTime, w.pk) - w.jobTime;
    a < b || (a == b && w0.jobTime >= w.jobTime)
  }

  /** The double sort ranks candidates by surplus, ties by larger job time. */
  lemma RankedOrder(t: Tables, workers: seq<Worker>, s: int, d: int)
    ensures var r := Ranked(t, workers, s, d);
      forall i, j :: 0 <= i < j < |r| ==> RanksBefore(t.workTime, r[i], r[j])
  {
    var r := Ranked(t, workers, s, d);
    SortTwice(Candidates(t.work, workers, s, d), LargerJobTimeFirst, Surplus(t.workTime));
    assert SortedThenBy(r, Surplus(t.workTime), LargerJobTimeFirst);
    forall i, j | 0 <= i < j < |r|
      ensures RanksBefore(t.workTime, r[i], r[j])
    {
      KeysRankBefore(t.workTime, r[i], r[j]);
    }
  }

  /** Two employees in sort-key order rank in that order. */
  lemma KeysRankBefore(workTime: map<int, int>, u: Worker, v: Worker)
    requires !LexLess(Surplus(workTime)(v), Surplus(workTime)(u))
    requires Surplus(workTime)(v) == Surplus(workTime)(u) ==> !LexLess(LargerJobTimeFirst(v), LargerJobTimeFirst(u))
    ensures RanksBefore(workTime, u, v)
  {
    var a, b := WorkTimeOf(workTime, u.pk) - u.jobTime, WorkTimeOf(workTime, v.pk) - v.jobTime;
    assert Surplus(workTime)(u) == [a] && Surplus(workTime)(v) == [b];
    LexLessSingleton(b, a);
    LexLessSingleton(-v.jobTime, -u.jobTime);
  }

  /** The head of a filtered ranking ranks no later than anything kept. */
  lemma {:induction false} FilterHeadFirst(xs: seq<Worker>, p: Worker -> bool, workTime: map<int, int>)
    requires forall i, j :: 0 <= i < j < |xs| ==> RanksBefore(workTime, xs[i], xs[j])
    requires Filter(xs, p) != []
    ensures forall w :: w in Filter(xs, p) ==> RanksBefore(workTime, Filter(xs, p)[0], w)
  {
    var tail := xs[1..];
    assert forall i, j :: 0 <= i < j < |tail| ==> RanksBefore(workTime, tail[i], tail[j]) by {
      forall i, j | 0 <= i < j < |tail|
        ensures RanksBefore(workTime, tail[i], tail[j])
      {
        assert tail[i] == xs[i + 1] && tail[j] == xs[j + 1];
      }
    }
    if p(xs[0]) {
      FilterFacts(tail, p);
      forall w | w in Filter(xs, p)
        ensures RanksBefore(workTime, xs[0], w)
      {
        if w != xs[0] {
          var j :| 0 <= j < |tail| && tail[j] == w;
          assert xs[j + 1] == w;
        }
      }
    } else {
      FilterHeadFirst(tail, p, workTime);
    }
  }

  /**
   * The employee who keeps the shift is a candidate, ranks first among
   * those left for step 2, and is within their job time whenever some
   * candidate is.
   */
  lemma KeeperFacts(t: Tables, workers: seq<Worker>, s: int, d: int)
    requires Candidates(t.work, workers, s, d) != []
    ensures Remaining(t, workers, s, d) != []
    ensures var keeper := Remaining(t, workers, s, d)[0];
      keeper in Candidates(t.work, workers, s, d) &&
      (AnyWithinJobTime(t.workTime, Candidates(t.work, workers, s, d)) ==> !OverJobTime(t.workTime)(keeper)) &&
      forall w :: w in Remaining(t, workers, s, d) ==> RanksBefore(t.workTime, keeper, w)
  {
    var r := Ranked(t, workers, s, d);
    var over := OverJobTime(t.workTime);
    SplitRanked(t, workers, s, d);
    StepOneFacts(t, workers, s, d);
    RankedOrder(t, workers, s, d);
    var rem := Remaining(t, workers, s, d);
    assert rem[0] in rem;
    if OverTargets(t, workers, s, d) != r {
      var within := (w: Worker) => !over(w);
      FilterIsReject(r, over, within);
      FilterHeadFirst(r, within, t.workTime);
    } else {
      FilterKeepsAll(r, (w: Worker) => true);
      FilterHeadFirst(r, (w: Worker) => true, t.workTime);
    }
  }

  class Solution {
    var work: map<Slot, bool>
    var workTime: map<int, int>

    constructor (work0: map<Slot, bool>, workTime0: map<int, int>)
      ensures work == work0 && workTime == workTime0
    {
      work := work0;
      workTime := workTime0;
    }

    /**
     * `update_working_hours`: every employee's tally grows by the hours of
     * each shift other than "-" the solver assigned them in days 1..numDays,
     * once per time they are listed; no other entry changes.
     */
    method UpdateWorkingHours(numDays: nat, shifts: seq<ShiftTypeInfo>, workers: seq<Worker>)
      requires forall w, s, d :: w in workers && s in shifts && 1 <= d <= numDays ==> Slot(w.pk, s.id, d) in work
      requires forall w :: w in workers ==> w.pk in workTime
      modifies this
      ensures work == old(work)
      ensures workTime.Keys == old(workTime).Keys
      ensures forall pk :: pk in workTime ==>
        workTime[pk] == old(workTime)[pk] + CountPk(workers, pk) * MonthHours(work, pk, shifts, numDays)
    {
      var d := 1;
      while d <= numDays
        invariant 1 <= d <= numDays + 1
        invariant work == old(work) && workTime.Keys == old(workTime).Keys
        invariant forall pk :: pk in workTime ==>
          workTime[pk] == old(workTime)[pk] + CountPk(workers, pk) * MonthHours(work, pk, shifts, d - 1)
      {
        ghost var before := workTime;
        AddDay(d, shifts, workers);
        forall pk | pk in workTime
          ensures workTime[pk] == old(workTime)[pk] + CountPk(workers, pk) * MonthHours(work, pk, shifts, d)
        {
          ScaleSum(CountPk(workers, pk), MonthHours(work, pk, shifts, d - 1), DayHours(work, pk, shifts, d));
        }
        d := d + 1;
      }
    }

    /** The two inner loops of `update_working_hours`, for day d. */
    method AddDay(d: int, shifts: seq<ShiftTypeInfo>, workers: seq<Worker>)
      requires forall w, s :: w in workers && s in shifts ==> Slot(w.pk, s.id, d) in work
      requires forall w :: w in workers ==> w.pk in workTime
      modifies this
      ensures work == old(work) && workTime.Keys == old(workTime).Keys
      ensures forall pk :: pk in workTime ==>
        workTime[pk] == old(workTime)[pk] + CountPk(workers, pk) * DayHours(work, pk, shifts, d)
    {
      var j := 0;
      while j < |shifts|
        invariant 0 <= j <= |shifts|
        invariant work == old(work) && workTime.Keys == old(workTime).Keys
        invariant forall pk :: pk in workTime ==>
          workTime[pk] == old(workTime)[pk] + CountPk(workers, pk) * DayHours(work, pk, shifts[..j], d)
      {
        ghost var before := workTime;
        var s := shifts[j];
        AddShift(d, s, workers);
        assert shifts[..j + 1][..j] == shifts[..j];
        forall pk | pk in workTime
          ensures workTime[pk] == old(workTime)[pk] + CountPk(workers, pk) * DayHours(work, pk, shifts[..j + 1], d)
        {
          var c, a, b := CountPk(workers, pk), DayHours(work, pk, shifts[..j], d), SlotHours(work, pk, s, d);
          assert DayHours(work, pk, shifts[..j + 1], d) == a + b;
          assert before[pk] == old(workTime)[pk] + c * a;
          CreditCount(workers, pk, b);
          ScaleSum(c, a, b);
        }
        j := j + 1;
      }
      assert shifts[..j] == shifts;
    }

    /** The innermost loop of `update_working_hours`, for shift s on day d. */
    method AddShift(d: int, s: ShiftTypeInfo, workers: seq<Worker>)
      requires forall w :: w in workers ==> Slot(w.pk, s.id, d) in work
      requires forall w :: w in workers ==> w.pk in workTime
      modifies this
      ensures work == old(work) && workTime.Keys == old(workTime).Keys
      ensures forall pk :: pk in workTime ==>
        workTime[pk] == old(workTime)[pk] + Credit(workers, pk, SlotHours(work, pk, s, d))
    {
      var k := 0;
      while k < |workers|
        invariant 0 <= k <= |workers|
        invariant work == old(work) && workTime.Keys == old(workTime).Keys
        invariant forall pk :: pk in workTime ==>
          workTime[pk] == old(workTime)[pk] + Credit(workers[..k], pk, SlotHours(work, pk, s, d))
      {
        var pk := workers[k].pk;
        if work[Slot(pk, s.id, d)] {
          if s.shiftType.name != FreeShiftName {
            workTime := workTime[pk := workTime[pk] + DurationHours(s)];
          }
        }
        assert workers[..k + 1][..k] == workers[..k];
        k := k + 1;
      }
      assert workers[..k] == workers;
    }

    /**
     * The `while` loops of `delete_excess_shifts` that pop the employees
     * to delete and take away their shift s on day d. The first deletion
     * raises StopIteration, changing nothing, when shift s is unknown.
     */
    method DeleteShifts(ws: seq<Worker>, s: int, d: int, shifts: seq<ShiftTypeInfo>, v: int) returns (left: int, err: Option<ReconcileError>)
      requires forall w :: w in ws ==> w.pk in workTime
      modifies this
      ensures old(work).Keys <= work.Keys && workTime.Keys == old(workTime).Keys
      ensures err.Some? <==> ws != [] && SchedulingContext.ShiftInfoById(shifts, s).None?
      ensures err.Some? ==> err == Some(StopIteration) && work == old(work) && workTime == old(workTime)
      ensures err.None? ==>
        (left == v - |ws| && Tables(work, workTime) == UnassignAll(old(Tables(work, workTime)), ws, s, d, ShiftDuration(shifts, s)))
    {
      ghost var t := Tables(work, workTime);
      var pending := ws;
      left := v;
      ghost var i := 0;
      while pending != []
        invariant 0 <= i <= |ws| && pending == ws[i..] && left == v - i
        invariant i > 0 ==> SchedulingContext.ShiftInfoById(shifts, s).Some?
        invariant old(work).Keys <= work.Keys && workTime.Keys == old(workTime).Keys
        invariant Tables(work, workTime) == UnassignAll(t, ws[..i], s, d, ShiftDuration(shifts, s))
        decreases |pending|
      {
        var em := pending[0];
        pending := pending[1..];
        assert em == ws[i] && em in ws;
        var info := SchedulingContext.ShiftInfoById(shifts, s);
        if info.None? {
          return left, Some(StopIteration);
        }
        work := work[Slot(em.pk, s, d) := false];
        work := work[Slot(em.pk, FreeShiftId, d) := true];
        left := left - 1;
        workTime := workTime[em.pk := workTime[em.pk] - DurationHours(info.value)];
        assert ws[..i + 1][..i] == ws[..i];
        i := i + 1;
      }
      assert ws[..i] == ws;
      err := None;
    }

    /** The body of the main loop of `delete_excess_shifts`, for the excess x. */
    method SettleExcess(workers: seq<Worker>, shifts: seq<ShiftTypeInfo>, x: Excess) returns (err: Option<ReconcileError>)
      requires UniquePks(workers)
      requires forall w :: w in workers ==> w.pk in workTime
      modifies this
      ensures old(work).Keys <= work.Keys && workTime.Keys == old(workTime).Keys
      ensures Outcome(Tables(work, workTime), err) == Settle(old(Tables(work, workTime)), workers, shifts, x)
    {
      ghost var t := Tables(work, workTime);
      var candidates, v;
      candidates, v, err := DeleteOverTargets(workers, shifts, x);
      SettleAfterStepOne(t, Tables(work, workTime), workers, shifts, x, candidates, v, err);
      if err.Some? {
        return;
      }
      err := KeepFirst(candidates, shifts, x, v);
    }

    /** Step 1: the candidates above their job time lose the shift, unless all of them are above it. */
    method DeleteOverTargets(workers: seq<Worker>, shifts: seq<ShiftTypeInfo>, x: Excess)
      returns (candidates: seq<Worker>, v: int, err: Option<ReconcileError>)
      requires UniquePks(workers)
      requires forall w :: w in workers ==> w.pk in workTime
      modifies this
      ensures old(work).Keys <= work.Keys && workTime.Keys == old(workTime).Keys
      ensures StepOne(old(Tables(work, workTime)), Tables(work, workTime), workers, shifts, x, candidates, v, err)
      ensures err.None? ==> forall w :: w in candidates ==> w.pk in workTime
    {
      ghost var t := Tables(work, workTime);
      var s, d := x.shift, x.day;
      v := x.count;
      RankedFacts(t, workers, s, d);
      candidates := Candidates(work, workers, s, d);
      candidates := Sort(Sort(candidates, LargerJobTimeFirst), Surplus(workTime));
      var fullTimers := Filter(candidates, OverJobTime(workTime));
      FilterFacts(candidates, OverJobTime(workTime));
      if fullTimers != candidates {
        candidates := DropFullTimers(candidates, fullTimers, workTime);
        v, err := DeleteShifts(fullTimers, s, d, shifts, v);
        RejectFacts(Ranked(t, workers, s, d), OverJobTime(t.workTime));
      } else {
        err := None;
      }
    }

    /** Step 2: the first remaining candidate keeps the shift, the others lose it; then the count is checked. */
    method KeepFirst(candidates: seq<Worker>, shifts: seq<ShiftTypeInfo>, x: Excess, v: int) returns (err: Option<ReconcileError>)
      requires forall w :: w in candidates ==> w.pk in workTime
      modifies this
      ensures old(work).Keys <= work.Keys && workTime.Keys == old(workTime).Keys
      ensures Outcome(Tables(work, workTime), err) == SettleRest(old(Tables(work, workTime)), candidates, shifts, x, v)
    {
      if candidates == [] {
        return Some(IndexError);
      }
      var rest := candidates[1..];
      assert forall w :: w in rest ==> w in candidates;
      var left;
      left, err := DeleteShifts(rest, x.shift, x.day, shifts, v);
      if err.Some? {
        return;
      }
      if left < 0 {
        return Some(ValueError);
      } else if left > 0 {
        var info := SchedulingContext.ShiftInfoById(shifts, x.shift);
        return Some(if info.None? then StopIteration else AttributeError);
      }
      return None;
    }

    /**
     * The first half of `delete_excess_shifts`: the excesses, each once,
     * those whose candidates all hold the highest job time first, the
     * others by count vector, largest first.
     */
    method PrepareOrder(workers: seq<Worker>, excess: seq<Excess>) returns (order: Result<seq<Excess>, ReconcileError>)
      ensures order == Order(work, workers, excess)
    {
      var jobTimes := JobTimes(workers);
      var keys: seq<Excess> := [];
      var i := 0;
      while i < |excess|
        invariant 0 <= i <= |excess| && keys == Keys(excess[..i])
      {
        assert excess[..i + 1][..i] == excess[..i];
        if excess[i] !in keys {
          keys := keys + [excess[i]];
        }
        i := i + 1;
      }
      assert excess[..i] == excess;
      if keys != [] && jobTimes == [] {
        return Failure(IndexError);
      }
      var fullTimers := Filter(keys, FullTimerEntry(work, workers, jobTimes));
      var rest := Sort(Reject(keys, FullTimerEntry(work, workers, jobTimes)), RestKey(work, workers, jobTimes));
      order := Success(fullTimers + rest);
    }

    /**
     * `delete_excess_shifts` for the excesses the solver reported. Reading
     * `work` at a slot it lacks raises KeyError in the source, so the slots
     * of every listed employee for every excess must be present.
     */
    method DeleteExcessShifts(workers: seq<Worker>, shifts: seq<ShiftTypeInfo>, excess: seq<Excess>) returns (err: Option<ReconcileError>)
      requires UniquePks(workers)
      requires forall w, x :: w in workers && x in excess ==> Slot(w.pk, x.shift, x.day) in work
      requires forall w :: w in workers ==> w.pk in workTime
      modifies this
      ensures old(work).Keys <= work.Keys && workTime.Keys == old(workTime).Keys
      ensures Outcome(Tables(work, workTime), err) == DeleteExcess(old(Tables(work, workTime)), workers, shifts, excess)
    {
      ghost var t := Tables(work, workTime);
      var prepared := PrepareOrder(workers, excess);
      if prepared.Failure? {
        return Some(prepared.error);
      }
      var order := prepared.value;
      assert DeleteExcess(t, workers, shifts, excess) == Process(t, workers, shifts, order);
      err := ProcessOrder(workers, shifts, order);
    }

    /** The main loop of `delete_excess_shifts`: the excesses in turn, until one raises. */
    method ProcessOrder(workers: seq<Worker>, shifts: seq<ShiftTypeInfo>, order: seq<Excess>) returns (err: Option<ReconcileError>)
      requires UniquePks(workers)
      requires forall w :: w in workers ==> w.pk in workTime
      modifies this
      ensures old(work).Keys <= work.Keys && workTime.Keys == old(workTime).Keys
      ensures Outcome(Tables(work, workTime), err) == Process(old(Tables(work, workTime)), workers, shifts, order)
    {
      ghost var t := Tables(work, workTime);
      var k := 0;
      err := None;
      while k < |order|
        invariant 0 <= k <= |order|
        invariant old(work).Keys <= work.Keys && workTime.Keys == old(workTime).Keys
        invariant err == None
        invariant Process(t, workers, shifts, order[..k]) == Outcome(Tables(work, workTime), None)
      {
        assert order[..k + 1][..k] == order[..k];
        err := SettleExcess(workers, shifts, order[k]);
        if err.Some? {
          ProcessStops(t, workers, shifts, order, k + 1);
          return;
        }
        k := k + 1;
      }
      assert order[..k] == order;
    }
  }
}
