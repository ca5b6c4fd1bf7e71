/** Study streaks over the days on which a user completed a review session. Days are numbered
    from 1970-01-01 (day 0); the query behind both calculations returns the distinct review days
    newest first, which `StrictlyDescending` states. */
module Streaks {

  predicate StrictlyDescending(dates: seq<int>)
  {
    forall i, j :: 0 <= i < j < |dates| ==> dates[i] > dates[j]
  }

  /** `n` consecutive review days end at `last`, and the day before them has no review. */
  ghost predicate ConsecutiveDays(dates: seq<int>, last: int, n: nat)
  {
    (forall d :: last - n < d <= last ==> d in dates) && last - n !in dates
  }

  /** There is only one such length. */
  lemma ConsecutiveDaysUnique(dates: seq<int>, last: int, n: nat, m: nat)
    requires ConsecutiveDays(dates, last, n) && ConsecutiveDays(dates, last, m)
    ensures n == m
  {
  }

  // ---------------------------------------------------------------------------
  // Plan update: walk back from today and stop at the first gap
  // ---------------------------------------------------------------------------

  /** The final loop of the plan's streak: an equal day extends the streak and moves the
      expected day back by one, an earlier day ends the walk, a later day is passed over. */
  function WalkDown(dates: seq<int>, current: int): (n: nat)
    ensures n <= |dates|
    ensures n > 0 ==> current in dates
  {
    if dates == [] then 0
    else if dates[0] == current then 1 + WalkDown(dates[1..], current - 1)
    else if dates[0] < current then 0
    else WalkDown(dates[1..], current)
  }

  /** On newest-first distinct days, the walk counts exactly the run of consecutive review
      days ending at `current`. */
  lemma {:induction false} WalkDownConsecutive(dates: seq<int>, current: int)
    requires StrictlyDescending(dates)
    ensures ConsecutiveDays(dates, current, WalkDown(dates, current))
  {
    if dates != [] {
      var rest := dates[1..];
      assert StrictlyDescending(rest);
      if dates[0] == current {
        WalkDownConsecutive(rest, current - 1);
        var m := WalkDown(rest, current - 1);
        forall d | current - (1 + m) < d <= current
          ensures d in dates
        {
          if d < current {
            assert d in rest;
          }
        }
        assert current - (1 + m) !in dates by {
          assert current - (1 + m) != dates[0];
        }
      } else if dates[0] < current {
        forall i | 0 <= i < |dates|
          ensures dates[i] != current
        {
          assert i == 0 || dates[i] < dates[0];
        }
      } else {
        WalkDownConsecutive(rest, current);
        var n := WalkDown(rest, current);
        forall d | current - n < d <= current
          ensures d in dates
        {
          assert d in rest;
        }
      }
    }
  }

  /** One step of the walk, taken at position `i` of the list. */
  lemma WalkDownAt(dates: seq<int>, i: int, current: int)
    requires 0 <= i < |dates|
    ensures dates[i] == current ==> WalkDown(dates[i..], current) == 1 + WalkDown(dates[i + 1..], current - 1)
    ensures dates[i] < current ==> WalkDown(dates[i..], current) == 0
    ensures dates[i] > current ==> WalkDown(dates[i..], current) == WalkDown(dates[i + 1..], current)
  {
    assert dates[i..][1..] == dates[i + 1..];
  }

  /** The streak shown after a plan update: 0 without any review or without one today,
      otherwise the final loop's count from today. */
  method PlanStreak(dates: seq<int>, today: int) returns (streak: nat)
    ensures dates == [] || today !in dates ==> streak == 0
    ensures streak == WalkDown(dates, today)
    ensures StrictlyDescending(dates) ==> ConsecutiveDays(dates, today, streak)
  {
    if dates == [] {
      return 0;
    }
    var todayReviewed := false;
    var i := 0;
    while i < |dates|
      invariant 0 <= i <= |dates|
      invariant todayReviewed <==> today in dates[..i]
    {
      if dates[i] == today {
        todayReviewed := true;
      }
      i := i + 1;
    }
    assert dates[..|dates|] == dates;
    if !todayReviewed {
      return 0;
    }
    streak := 0;
    var current := today;
    var foundToday := false;
    i := 0;
    while i < |dates|
      invariant 0 <= i <= |dates|
      invariant current == today - streak
      invariant foundToday <==> streak > 0
      invariant streak + WalkDown(dates[i..], current) == WalkDown(dates, today)
    {
      WalkDownAt(dates, i, current);
      if dates[i] == current {
        foundToday := true;
        streak := streak + 1;
        current := current - 1;
      } else if dates[i] < current {
        break;
      }
      i := i + 1;
    }
    if !foundToday {
      streak := 0;
    }
    if StrictlyDescending(dates) {
      WalkDownConsecutive(dates, today);
    }
  }

  // ---------------------------------------------------------------------------
  // Statistics page: anchor on today or yesterday, then count while skipping gaps
  // ---------------------------------------------------------------------------

  /** The statistics loop after the anchor: an equal day extends the streak, an earlier day
      moves the expected day to the one before it without counting, a later day is passed over. */
  function SkipWalk(dates: seq<int>, expected: int): (n: nat)
    ensures n <= CountAtMost(dates, expected)
  {
    if dates == [] then 0
    else if dates[0] == expected then
      CountAtMostMonotone(dates[1..], expected - 1, expected);
      1 + SkipWalk(dates[1..], expected - 1)
    else if dates[0] < expected then
      CountAtMostMonotone(dates[1..], dates[0] - 1, expected);
      SkipWalk(dates[1..], dates[0] - 1)
    else SkipWalk(dates[1..], expected)
  }

  /** The number of days on or before `bound`. */
  function CountAtMost(dates: seq<int>, bound: int): (n: nat)
    ensures n <= |dates|
  {
    if dates == [] then 0
    else (if dates[0] <= bound then 1 else 0) + CountAtMost(dates[1..], bound)
  }

  lemma {:induction false} CountAtMostMonotone(dates: seq<int>, a: int, b: int)
    requires a <= b
    ensures CountAtMost(dates, a) <= CountAtMost(dates, b)
  {
    if dates != [] {
      CountAtMostMonotone(dates[1..], a, b);
    }
  }

  /** A day that is present and after `bound` is not counted. */
  lemma {:induction false} CountAtMostBelowPresent(dates: seq<int>, bound: int, day: int)
    requires day in dates && day > bound
    ensures CountAtMost(dates, bound) < |dates|
  {
    if dates[0] != day {
      CountAtMostBelowPresent(dates[1..], bound, day);
    }
  }

  /** The statistics streak as the source computes it. */
  function StatsStreak(dates: seq<int>, today: int): (n: nat)
  {
    if today in dates then 1 + SkipWalk(dates, today - 1)
    else if today - 1 in dates then 1 + SkipWalk(dates, today - 2)
    else 0
  }

  /** Zero exactly when neither today nor yesterday has a review, at least one otherwise, and
      never more than the number of review days. */
  lemma StatsStreakBounds(dates: seq<int>, today: int)
    ensures StatsStreak(dates, today) == 0 <==> today !in dates && today - 1 !in dates
    ensures StatsStreak(dates, today) <= |dates|
  {
    if today in dates {
      CountAtMostBelowPresent(dates, today - 1, today);
    } else if today - 1 in dates {
      CountAtMostBelowPresent(dates, today - 2, today - 1);
    }
  }

  /** A gap of one day below today does not end the statistics streak: reviews today, two and
      three days ago give 2, although yesterday has no review. */
  lemma StatsStreakSkipsGap()
    ensures StatsStreak([10, 8, 7], 10) == 2
    ensures ConsecutiveDays([10, 8, 7], 10, 1)
  {
    assert [10, 8, 7][1..] == [8, 7];
    assert [8, 7][1..] == [7];
    assert [7][1..] == [];
    assert 9 !in [10, 8, 7];
  }

  /** The streak as the statistics page computes it. */
  method GetStatsStreak(dates: seq<int>, today: int) returns (streak: nat)
    ensures streak == StatsStreak(dates, today)
    ensures streak == 0 <==> today !in dates && today - 1 !in dates
    ensures streak <= |dates|
  {
    StatsStreakBounds(dates, today);
    if dates == [] {
      return 0;
    }
    var yesterday := today - 1;
    streak := 0;
    var todayReviewed := false;
    var i := 0;
    while i < |dates|
      invariant 0 <= i <= |dates|
      invariant today !in dates[..i]
      invariant !todayReviewed && streak == 0
    {
      if dates[i] == today {
        todayReviewed := true;
        streak := 1;
        break;
      }
      i := i + 1;
    }
    assert todayReviewed <==> today in dates by {
      assert !todayReviewed ==> dates[..|dates|] == dates;
    }
    if !todayReviewed {
      i := 0;
      while i < |dates|
        invariant 0 <= i <= |dates|
        invariant yesterday !in dates[..i]
        invariant streak == 0
      {
        if dates[i] == yesterday {
          streak := 1;
          break;
        }
        i := i + 1;
      }
      assert streak == 1 <==> yesterday in dates by {
        assert streak == 0 ==> dates[..|dates|] == dates;
      }
    }
    if streak > 0 {
      var expected := if todayReviewed then today - 1 else yesterday - 1;
      ghost var total := 1 + SkipWalk(dates, expected);
      i := 0;
      while i < |dates|
        invariant 0 <= i <= |dates|
        invariant streak + SkipWalk(dates[i..], expected) == total
      {
        assert dates[i..][1..] == dates[i + 1..];
        if dates[i] == expected {
          streak := streak + 1;
          expected := expected - 1;
        } else if dates[i] < expected {
          expected := dates[i] - 1;
        }
        i := i + 1;
      }
    }
  }

  /** The streak the statistics page evidently means: anchored on today, or on yesterday when
      today has no review yet, and ended by the first missing day. */
  function CurrentStreak(dates: seq<int>, today: int): (n: nat)
    ensures n <= |dates|
  {
    if today in dates then WalkDown(dates, today)
    else if today - 1 in dates then WalkDown(dates, today - 1)
    else 0
  }

  /** On newest-first distinct days: zero exactly when neither today nor yesterday has a
      review, and otherwise the run of consecutive review days ending at the anchor. */
  lemma CurrentStreakConsecutive(dates: seq<int>, today: int)
    requires StrictlyDescending(dates)
    ensures CurrentStreak(dates, today) == 0 <==> today !in dates && today - 1 !in dates
    ensures today in dates ==> ConsecutiveDays(dates, today, CurrentStreak(dates, today))
    ensures today !in dates && today - 1 in dates
      ==> ConsecutiveDays(dates, today - 1, CurrentStreak(dates, today))
  {
    WalkDownConsecutive(dates, today);
    WalkDownConsecutive(dates, today - 1);
  }

  /** The longest streak is reported as the current statistics streak, but never below 30. */
  function LongestStreak(streak: nat): (n: nat)
    ensures n >= 30 && n >= streak
    ensures n == streak || n == 30
  {
    if streak >= 30 then streak else 30
  }

  // ---------------------------------------------------------------------------
  // Week start
  // ---------------------------------------------------------------------------

  /** ISO day of the week, Monday = 1 ... Sunday = 7; day 0 was a Thursday. */
  function DayOfWeek(day: int): (w: int)
    ensures 1 <= w <= 7
  {
    (day + 3) % 7 + 1
  }

  /** `today.minusDays(dayOfWeek - 1)`: the Monday of the current week. */
  function WeekStart(today: int): (monday: int)
    ensures DayOfWeek(monday) == 1
    ensures monday <= today < monday + 7
  {
    today - (DayOfWeek(today) - 1)
  }
}
