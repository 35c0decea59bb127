/**
 * Calendar helpers of the scheduler: a month split into Monday-start weeks and
 * into fixed seven-day billing weeks, list flattening, and weekday letters.
 */
module Helpers {
  import opened Dates
  import opened Wrappers

  /** A (day, weekday) pair; weekday 0 is Monday. Day 0 marks a padding day. */
  type DayEntry = (int, int)

  // ---------------------------------------------------------------- flatten

  /** `[item for sublist in t for item in sublist]` */
  function Flatten<T>(t: seq<seq<T>>): seq<T>
  {
    if t == [] then [] else t[0] + Flatten(t[1..])
  }

  function SumLengths<T>(t: seq<seq<T>>): nat
  {
    if t == [] then 0 else |t[0]| + SumLengths(t[1..])
  }

  /** Flattening distributes over concatenation of the outer list. */
  lemma {:induction false} FlattenAppend<T>(a: seq<seq<T>>, b: seq<seq<T>>)
    ensures Flatten(a + b) == Flatten(a) + Flatten(b)
    ensures SumLengths(a + b) == SumLengths(a) + SumLengths(b)
  {
    if a == [] {
      assert a + b == b;
    } else {
      assert (a + b)[1..] == a[1..] + b;
      FlattenAppend(a[1..], b);
    }
  }

  /** The flattened list is as long as all sublists together. */
  lemma {:induction false} FlattenLength<T>(t: seq<seq<T>>)
    ensures |Flatten(t)| == SumLengths(t)
  {
    if t != [] {
      FlattenLength(t[1..]);
    }
  }

  /**
   * Order is preserved: item j of sublist k sits in the flattened list right
   * after every item of the sublists before k.
   */
  lemma FlattenAt<T>(t: seq<seq<T>>, k: nat, j: nat)
    requires k < |t| && j < |t[k]|
    ensures SumLengths(t[..k]) + j < |Flatten(t)|
    ensures Flatten(t)[SumLengths(t[..k]) + j] == t[k][j]
  {
    assert t == t[..k] + t[k..];
    FlattenAppend(t[..k], t[k..]);
    FlattenLength(t[..k]);
    FlattenLength(t);
    assert Flatten(t[k..]) == t[k] + Flatten(t[k..][1..]);
  }

  // ---------------------------------------------------------------- chunks

  /** `[s[i:i + k] for i in range(0, len(s), k)]` */
  function Chunk<T>(s: seq<T>, k: nat): seq<seq<T>>
    requires 0 < k
    decreases |s|
  {
    if s == [] then []
    else if |s| <= k then [s]
    else [s[..k]] + Chunk(s[k..], k)
  }

  /** Re-joining the chunks gives back the list. */
  lemma {:induction false} FlattenChunk<T>(s: seq<T>, k: nat)
    requires 0 < k
    ensures Flatten(Chunk(s, k)) == s
    decreases |s|
  {
    if |s| > k {
      FlattenChunk(s[k..], k);
      assert s == s[..k] + s[k..];
    }
  }

  /** There are just enough chunks to cover the list. */
  lemma {:induction false} ChunkCount<T>(s: seq<T>, k: nat)
    requires 0 < k
    ensures s == [] <==> Chunk(s, k) == []
    ensures s != [] ==> (|Chunk(s, k)| - 1) * k < |s| <= |Chunk(s, k)| * k
    decreases |s|
  {
    if |s| > k {
      var c := |Chunk(s[k..], k)|;
      ChunkCount(s[k..], k);
      assert (c + 1) * k == c * k + k;
      assert c * k == (c - 1) * k + k;
    }
  }

  /** Chunk i is the slice of k items starting at i * k, cut short at the end of the list. */
  lemma {:induction false} ChunkAt<T>(s: seq<T>, k: nat, i: nat)
    requires 0 < k && i < |Chunk(s, k)|
    ensures i * k < |s|
    ensures Chunk(s, k)[i] == s[i * k .. if i * k + k <= |s| then i * k + k else |s|]
    decreases |s|
  {
    if i == 0 {
      assert s != [];
    } else {
      assert |s| > k;
      var rest := s[k..];
      assert Chunk(s, k)[i] == Chunk(rest, k)[i - 1];
      ChunkAt(rest, k, i - 1);
      var m := (i - 1) * k;
      MulSucc(i - 1, k);
      var hi := if m + k <= |rest| then m + k else |rest|;
      assert rest[m..hi] == s[m + k..hi + k];
    }
  }

  lemma MulSucc(j: int, k: int)
    ensures (j + 1) * k == j * k + k
  {
  }

  // ---------------------------------------------------------------- weekday letters

  const WeekdayNames: seq<string> := ["Monday", "Tuesday", "Wednesday", "Thursday", "Friday", "Saturday", "Sunday"]

  /** The first letter of the weekday's English name; None for anything but 0..6. */
  function GetLetterForWeekday(day: int): (r: Option<char>)
    ensures r.Some? <==> 0 <= day < 7
    ensures r.Some? ==> r.value == WeekdayNames[day][0]
  {
    match day
    case 0 => Some('M')
    case 1 | 3 => Some('T')
    case 2 => Some('W')
    case 4 => Some('F')
    case 5 | 6 => Some('S')
    case _ => None
  }

  // ---------------------------------------------------------------- weeks of a month

  /**
   * `calendar.Calendar().itermonthdays2` (chunked into sevens by
   * `monthdays2calendar`) for a month of n days whose first day
   * has weekday f: f padding days, then days 1..n, then padding up to a whole
   * week; every position p carries weekday p % 7.
   */
  function PaddedMonth(n: nat, f: nat): (r: seq<DayEntry>)
    requires f < 7
    ensures |r| % 7 == 0 && f + n <= |r| < f + n + 7
  {
    var total := f + n + (0 - f - n) % 7;
    seq(total, p requires 0 <= p < total => if f <= p < f + n then (p - f + 1, p % 7) else (0, p % 7))
  }

  /** The weekday of the first day of a month. */
  function FirstWeekday(year: int, month: int): (f: nat)
    requires 1 <= year && 1 <= month <= 12
    ensures f < 7
  {
    Weekday(Date(year, month, 1))
  }

  /** `filter(lambda item: item[0] != 0, week)` */
  function DropPadding(week: seq<DayEntry>): seq<DayEntry>
  {
    if week == [] then []
    else if week[0].0 != 0 then [week[0]] + DropPadding(week[1..])
    else DropPadding(week[1..])
  }

  /** The padded weeks of a month of n days starting on weekday f, padding days dropped. */
  function Weeks(n: nat, f: nat): seq<seq<DayEntry>>
    requires f < 7
  {
    var cal := Chunk(PaddedMonth(n, f), 7);
    seq(|cal|, k requires 0 <= k < |cal| => DropPadding(cal[k]))
  }

  /** The month as Monday-start weeks of (day, weekday) pairs, padding days dropped. */
  function GetMonthByWeeks(year: int, month: int): seq<seq<DayEntry>>
    requires 1 <= year && 1 <= month <= 12
  {
    Weeks(DaysInMonth(year, month), FirstWeekday(year, month))
  }

  /** The month as consecutive seven-day blocks counted from day 1. */
  function GetMonthByBillingWeeks(year: int, month: int): seq<seq<DayEntry>>
    requires 1 <= year && 1 <= month <= 12
  {
    Chunk(Flatten(GetMonthByWeeks(year, month)), 7)
  }

  /** Reference definition: days 1..n in order, day 1 on weekday f and each next day on the next weekday. */
  function MonthDays(n: nat, f: nat): seq<DayEntry>
  {
    seq(n, i requires 0 <= i < n => (i + 1, (f + i) % 7))
  }

  /** How many real days precede padded position p. */
  function Clip(n: nat, f: nat, p: int): nat
  {
    if p <= f then 0 else if p >= f + n then n else p - f
  }

  lemma {:induction false} DropPaddingAppend(a: seq<DayEntry>, b: seq<DayEntry>)
    ensures DropPadding(a + b) == DropPadding(a) + DropPadding(b)
  {
    if a == [] {
      assert a + b == b;
    } else {
      assert (a + b)[1..] == a[1..] + b;
      DropPaddingAppend(a[1..], b);
    }
  }

  /** Dropping the padding from any stretch of the padded month leaves the matching stretch of days. */
  lemma {:induction false} DropPaddedSlice(n: nat, f: nat, a: nat, b: nat)
    requires f < 7 && a <= b <= |PaddedMonth(n, f)|
    ensures DropPadding(PaddedMonth(n, f)[a..b]) == MonthDays(n, f)[Clip(n, f, a)..Clip(n, f, b)]
    decreases b - a
  {
    var P := PaddedMonth(n, f);
    if a < b {
      DropPaddedSlice(n, f, a, b - 1);
      assert P[a..b] == P[a..b - 1] + [P[b - 1]];
      DropPaddingAppend(P[a..b - 1], [P[b - 1]]);
      DropPaddedLast(n, f, a, b);
    }
  }

  /** Padded position b - 1 adds the day it holds, if it holds one, to the days before it. */
  lemma DropPaddedLast(n: nat, f: nat, a: nat, b: nat)
    requires f < 7 && a < b <= |PaddedMonth(n, f)|
    ensures var D := MonthDays(n, f);
      D[Clip(n, f, a)..Clip(n, f, b - 1)] + DropPadding([PaddedMonth(n, f)[b - 1]]) == D[Clip(n, f, a)..Clip(n, f, b)]
  {
    var P, D := PaddedMonth(n, f), MonthDays(n, f);
    assert DropPadding([P[b - 1]]) == if P[b - 1].0 != 0 then [P[b - 1]] else [];
    if f <= b - 1 < f + n {
      assert P[b - 1] == D[b - 1 - f];
      assert D[Clip(n, f, a)..Clip(n, f, b)] == D[Clip(n, f, a)..Clip(n, f, b - 1)] + [D[b - 1 - f]];
    } else {
      assert P[b - 1].0 == 0;
    }
  }

  /** Week k of the month is the stretch of days whose padded positions fall in 7k..7k+6. */
  lemma WeekAt(n: nat, f: nat, k: nat)
    requires f < 7
    ensures |Weeks(n, f)| * 7 == |PaddedMonth(n, f)|
    ensures k < |Weeks(n, f)| ==> Weeks(n, f)[k] == MonthDays(n, f)[Clip(n, f, 7 * k)..Clip(n, f, 7 * k + 7)]
  {
    var P := PaddedMonth(n, f);
    ChunkCount(P, 7);
    if k < |Chunk(P, 7)| {
      ChunkAt(P, 7, k);
      DropPaddedSlice(n, f, 7 * k, 7 * k + 7);
    }
  }

  /** Flattening the weeks from week k on gives the days from week k's first day to the end. */
  lemma {:induction false} FlattenWeeksFrom(n: nat, f: nat, k: nat)
    requires f < 7 && k <= |Weeks(n, f)|
    ensures Flatten(Weeks(n, f)[k..]) == MonthDays(n, f)[Clip(n, f, 7 * k)..]
    decreases |Weeks(n, f)| - k
  {
    var weeks := Weeks(n, f);
    var D := MonthDays(n, f);
    WeekAt(n, f, k);
    if k < |weeks| {
      FlattenWeeksFrom(n, f, k + 1);
      assert weeks[k..][1..] == weeks[k + 1..];
      assert D[Clip(n, f, 7 * k)..] == D[Clip(n, f, 7 * k)..Clip(n, f, 7 * k + 7)] + D[Clip(n, f, 7 * k + 7)..];
    }
  }

  /** Flattening the weeks yields days 1..N exactly once, in order, each with its weekday. */
  lemma MonthByWeeksFlatten(year: int, month: int)
    requires 1 <= year && 1 <= month <= 12
    ensures Flatten(GetMonthByWeeks(year, month)) == MonthDays(DaysInMonth(year, month), FirstWeekday(year, month))
  {
    var n, f := DaysInMonth(year, month), FirstWeekday(year, month);
    FlattenWeeksFrom(n, f, 0);
    assert Weeks(n, f)[0..] == Weeks(n, f);
  }

  /** The days of the month, read off the flattened weeks: days 1..N in order, each with a weekday in 0..6. */
  lemma MonthDaysInOrder(year: int, month: int)
    requires 1 <= year && 1 <= month <= 12
    ensures var days := Flatten(GetMonthByWeeks(year, month));
      |days| == DaysInMonth(year, month) &&
      forall i :: 0 <= i < |days| ==> days[i].0 == i + 1 && 0 <= days[i].1 < 7
  {
    MonthByWeeksFlatten(year, month);
    MonthDaysFacts(DaysInMonth(year, month), FirstWeekday(year, month));
  }

  /** Days 1..n in order, day 1 on weekday f and each next day on the next weekday. */
  lemma MonthDaysFacts(n: nat, f: nat)
    requires f < 7
    ensures var days := MonthDays(n, f);
      |days| == n &&
      (forall i :: 0 <= i < n ==> days[i].0 == i + 1 && 0 <= days[i].1 < 7) &&
      (n > 0 ==> days[0].1 == f) &&
      (forall i :: 0 <= i < n - 1 ==> days[i + 1].1 == (days[i].1 + 1) % 7)
  {
    var days := MonthDays(n, f);
    forall i | 0 <= i < n - 1
      ensures days[i + 1].1 == (days[i].1 + 1) % 7
    {
      NextWeekday(f + i);
    }
  }

  /** The weekday after weekday a % 7. */
  lemma NextWeekday(a: nat)
    ensures (a + 1) % 7 == (a % 7 + 1) % 7
  {
    var q, r := a / 7, a % 7;
    assert a == 7 * q + r;
    if r < 6 {
      assert a + 1 == 7 * q + (r + 1);
    } else {
      assert a + 1 == 7 * (q + 1);
    }
  }

  /** The stretch of days that week k of a month of W weeks covers. */
  lemma WeekBounds(n: nat, f: nat, k: nat, w: nat)
    requires f < 7 && 1 <= n && |PaddedMonth(n, f)| == 7 * w && k < w
    ensures Clip(n, f, 7 * k) < Clip(n, f, 7 * k + 7) <= Clip(n, f, 7 * k) + 7
    ensures k >= 1 ==> Clip(n, f, 7 * k) == 7 * k - f
    ensures k < w - 1 ==> Clip(n, f, 7 * k + 7) == 7 * k + 7 - f
  {
  }

  /** The shape of the weeks of a month of n >= 1 days starting on weekday f. */
  lemma WeeksShape(n: nat, f: nat)
    requires f < 7 && 1 <= n
    ensures var weeks := Weeks(n, f);
      1 <= |weeks| &&
      (forall k :: 0 <= k < |weeks| ==> 1 <= |weeks[k]| <= 7) &&
      (forall k :: 1 <= k < |weeks| ==> weeks[k][0].1 == 0) &&
      (forall k :: 0 <= k < |weeks| - 1 ==> weeks[k][|weeks[k]| - 1].1 == 6)
  {
    var weeks: seq<seq<DayEntry>> := Weeks(n, f);
    var D := MonthDays(n, f);
    var w := |weeks|;
    WeekAt(n, f, 0);
    forall k | 0 <= k < w
      ensures 1 <= |weeks[k]| <= 7
      ensures k >= 1 ==> weeks[k][0].1 == 0
      ensures k < w - 1 ==> weeks[k][|weeks[k]| - 1].1 == 6
    {
      WeekAt(n, f, k);
      WeekBounds(n, f, k, w);
      var lo, hi := Clip(n, f, 7 * k), Clip(n, f, 7 * k + 7);
      assert weeks[k] == D[lo..hi];
      if k >= 1 {
        assert weeks[k][0] == D[7 * k - f];
      }
      if k < w - 1 {
        assert weeks[k][|weeks[k]| - 1] == D[7 * k + 6 - f];
      }
    }
  }

  /**
   * Each week has one to seven days; every week but the first starts on a
   * Monday and every week but the last ends on a Sunday.
   */
  lemma WeekShape(year: int, month: int)
    requires 1 <= year && 1 <= month <= 12
    ensures var weeks := GetMonthByWeeks(year, month);
      1 <= |weeks| &&
      (forall k :: 0 <= k < |weeks| ==> 1 <= |weeks[k]| <= 7) &&
      (forall k :: 1 <= k < |weeks| ==> weeks[k][0].1 == 0) &&
      (forall k :: 0 <= k < |weeks| - 1 ==> weeks[k][|weeks[k]| - 1].1 == 6)
  {
    WeeksShape(DaysInMonth(year, month), FirstWeekday(year, month));
  }

  /**
   * Billing weeks: every block but the last holds exactly seven days, the last
   * one to seven, block i starts at day 7i + 1, and the blocks re-join into the
   * flattened month.
   */
  lemma BillingWeeksShape(year: int, month: int)
    requires 1 <= year && 1 <= month <= 12
    ensures var blocks := GetMonthByBillingWeeks(year, month);
      Flatten(blocks) == Flatten(GetMonthByWeeks(year, month)) &&
      1 <= |blocks| &&
      (forall i :: 0 <= i < |blocks| - 1 ==> |blocks[i]| == 7) &&
      1 <= |blocks[|blocks| - 1]| <= 7 &&
      (forall i, j :: 0 <= i < |blocks| && 0 <= j < |blocks[i]| ==> blocks[i][j].0 == 7 * i + j + 1)
  {
    var days := Flatten(GetMonthByWeeks(year, month));
    var blocks: seq<seq<DayEntry>> := GetMonthByBillingWeeks(year, month);
    FlattenChunk(days, 7);
    MonthDaysInOrder(year, month);
    ChunkCount(days, 7);
    forall i | 0 <= i < |blocks|
      ensures i < |blocks| - 1 ==> |blocks[i]| == 7
      ensures 1 <= |blocks[i]| <= 7
      ensures forall j :: 0 <= j < |blocks[i]| ==> blocks[i][j].0 == 7 * i + j + 1
    {
      ChunkAt(days, 7, i);
    }
  }

  /** February 2024 has 29 days and starts on a Thursday. */
  lemma February2024Start()
    ensures FirstWeekday(2024, 2) == 3 && DaysInMonth(2024, 2) == 29
  {
    assert Ordinal(Date(2024, 2, 1)) == 738917;
  }

  /** Weeks of a 29-day month starting on a Thursday, as stretches of its days. */
  lemma Weeks29From3()
    ensures var weeks, D := Weeks(29, 3), MonthDays(29, 3);
      |weeks| == 5 && weeks[0] == D[0..4] && weeks[1] == D[4..11] && weeks[2] == D[11..18] &&
      weeks[3] == D[18..25] && weeks[4] == D[25..29]
  {
    WeekAt(29, 3, 0);
    assert |PaddedMonth(29, 3)| == 35;
    WeekAt(29, 3, 1);
    WeekAt(29, 3, 2);
    WeekAt(29, 3, 3);
    WeekAt(29, 3, 4);
  }

  /** The days of a 29-day month starting on a Thursday, cut at its Mondays. */
  lemma Days29From3()
    ensures var D := MonthDays(29, 3);
      D[0..4] == [(1, 3), (2, 4), (3, 5), (4, 6)] &&
      D[4..11] == [(5, 0), (6, 1), (7, 2), (8, 3), (9, 4), (10, 5), (11, 6)] &&
      D[11..18] == [(12, 0), (13, 1), (14, 2), (15, 3), (16, 4), (17, 5), (18, 6)] &&
      D[18..25] == [(19, 0), (20, 1), (21, 2), (22, 3), (23, 4), (24, 5), (25, 6)] &&
      D[25..29] == [(26, 0), (27, 1), (28, 2), (29, 3)]
  {
  }

  /** The weeks of February 2024 (a leap month starting on a Thursday). */
  lemma February2024Weeks()
    ensures GetMonthByWeeks(2024, 2) ==
      [[(1, 3), (2, 4), (3, 5), (4, 6)],
       [(5, 0), (6, 1), (7, 2), (8, 3), (9, 4), (10, 5), (11, 6)],
       [(12, 0), (13, 1), (14, 2), (15, 3), (16, 4), (17, 5), (18, 6)],
       [(19, 0), (20, 1), (21, 2), (22, 3), (23, 4), (24, 5), (25, 6)],
       [(26, 0), (27, 1), (28, 2), (29, 3)]]
  {
    February2024Start();
    assert GetMonthByWeeks(2024, 2) == Weeks(29, 3);
    Weeks29From3();
    Days29From3();
  }

  /** A 29-day month starting on a Thursday, cut into blocks of seven. */
  lemma Blocks29From3()
    ensures var D := MonthDays(29, 3);
      Chunk(D, 7) == [D[0..7], D[7..14], D[14..21], D[21..28], D[28..29]]
  {
    var D := MonthDays(29, 3);
    ChunkCount(D, 7);
    ChunkAt(D, 7, 0);
    ChunkAt(D, 7, 1);
    ChunkAt(D, 7, 2);
    ChunkAt(D, 7, 3);
    ChunkAt(D, 7, 4);
  }

  /** The days of a 29-day month starting on a Thursday, cut every seven days. */
  lemma Days29Blocks()
    ensures var D := MonthDays(29, 3);
      D[0..7] == [(1, 3), (2, 4), (3, 5), (4, 6), (5, 0), (6, 1), (7, 2)] &&
      D[7..14] == [(8, 3), (9, 4), (10, 5), (11, 6), (12, 0), (13, 1), (14, 2)] &&
      D[14..21] == [(15, 3), (16, 4), (17, 5), (18, 6), (19, 0), (20, 1), (21, 2)] &&
      D[21..28] == [(22, 3), (23, 4), (24, 5), (25, 6), (26, 0), (27, 1), (28, 2)] &&
      D[28..29] == [(29, 3)]
  {
  }

  /** The billing weeks of February 2024: four full blocks and day 29 on its own. */
  lemma February2024BillingWeeks()
    ensures GetMonthByBillingWeeks(2024, 2) ==
      [[(1, 3), (2, 4), (3, 5), (4, 6), (5, 0), (6, 1), (7, 2)],
       [(8, 3), (9, 4), (10, 5), (11, 6), (12, 0), (13, 1), (14, 2)],
       [(15, 3), (16, 4), (17, 5), (18, 6), (19, 0), (20, 1), (21, 2)],
       [(22, 3), (23, 4), (24, 5), (25, 6), (26, 0), (27, 1), (28, 2)],
       [(29, 3)]]
  {
    February2024Start();
    MonthByWeeksFlatten(2024, 2);
    assert GetMonthByBillingWeeks(2024, 2) == Chunk(MonthDays(29, 3), 7);
    Blocks29From3();
    Days29Blocks();
  }
}
