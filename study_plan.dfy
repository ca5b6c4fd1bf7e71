/** The study-plan export: the words due for review are grouped by their review day, and
    every day of the requested range gets the words due that day, at most the daily goal of
    them, the least mastered first. Days are epoch-day numbers. */
module StudyPlan {
  import opened Common
  import Sorting

  /** A word due for review: its id, its mastery level and the day of its next review. */
  datatype DueWord = DueWord(id: int, mastery: int, reviewDay: int)

  function Mastery(w: DueWord): int { w.mastery }

  // ---------------------------------------------------------------------------
  // Request validation
  // ---------------------------------------------------------------------------

  /** The request's dates as sent (a missing date is None) and its daily goal. */
  datatype PlanRequest = PlanRequest(startDate: Option<string>, endDate: Option<string>,
                                     dailyGoal: int)

  const MissingStart := "开始日期不能为空"
  const MissingEnd := "结束日期不能为空"
  const GoalOutOfRange := "每日目标应在1-100之间"

  /** The checks in the order the handler makes them: a start date, an end date, and a daily
      goal from 1 to 100. */
  function ValidatePlanRequest(req: PlanRequest): (r: Result<PlanRequest>)
    ensures r.Ok? <==> req.startDate.Some? && req.startDate.value != ""
                       && req.endDate.Some? && req.endDate.value != ""
                       && 1 <= req.dailyGoal <= 100
    ensures r.Ok? ==> r.value == req
    ensures (req.startDate.None? || req.startDate.value == "") ==> r == Err(MissingStart)
    ensures r.Err? && r.message == GoalOutOfRange ==> !(1 <= req.dailyGoal <= 100)
  {
    if req.startDate.None? || req.startDate.value == "" then Err(MissingStart)
    else if req.endDate.None? || req.endDate.value == "" then Err(MissingEnd)
    else if req.dailyGoal <= 0 || req.dailyGoal > 100 then Err(GoalOutOfRange)
    else Ok(req)
  }

  // ---------------------------------------------------------------------------
  // Grouping by review day
  // ---------------------------------------------------------------------------

  /** The words due on `day`, in list order. */
  function DueOn(words: seq<DueWord>, day: int): (due: seq<DueWord>)
    ensures |due| <= |words|
    ensures forall w :: w in due ==> w in words && w.reviewDay == day
    ensures forall w :: w in words && w.reviewDay == day ==> w in due
  {
    if words == [] then []
    else
      var init := DueOn(words[..|words| - 1], day);
      var last := words[|words| - 1];
      assert forall w :: w in words ==> w in words[..|words| - 1] || w == last;
      if last.reviewDay == day then init + [last] else init
  }

  /** The grouping loop's dictionary: one list per review day, in list order. */
  function Grouped(words: seq<DueWord>): (byDate: map<int, seq<DueWord>>)
  {
    if words == [] then map[]
    else
      var g := Grouped(words[..|words| - 1]);
      var last := words[|words| - 1];
      g[last.reviewDay := (if last.reviewDay in g then g[last.reviewDay] else []) + [last]]
  }

  /** The dictionary has a list exactly for the days some word is due, and that list is the
      words due that day. */
  lemma {:induction false} GroupedIsDueOn(words: seq<DueWord>, day: int)
    ensures day in Grouped(words) <==> DueOn(words, day) != []
    ensures day in Grouped(words) ==> Grouped(words)[day] == DueOn(words, day)
  {
    if words != [] {
      GroupedIsDueOn(words[..|words| - 1], day);
    }
  }

  /** The grouping loop. */
  method GroupByDate(words: seq<DueWord>) returns (byDate: map<int, seq<DueWord>>)
    ensures byDate == Grouped(words)
  {
    byDate := map[];
    var i := 0;
    while i < |words|
      invariant 0 <= i <= |words|
      invariant byDate == Grouped(words[..i])
    {
      var w := words[i];
      assert words[..i + 1][..i] == words[..i];
      if w.reviewDay !in byDate {
        byDate := byDate[w.reviewDay := []];
      }
      byDate := byDate[w.reviewDay := byDate[w.reviewDay] + [w]];
      i := i + 1;
    }
    assert words[..|words|] == words;
  }

  // ---------------------------------------------------------------------------
  // The plan
  // ---------------------------------------------------------------------------

  /** One entry of the plan: a day and the words to review on it. */
  datatype DayPlan = DayPlan(day: int, words: seq<DueWord>)

  /** The words kept for one day: all of them when they fit the goal, otherwise the first
      `goal` after a stable sort by mastery. */
  function DayWords(due: seq<DueWord>, goal: int): (kept: seq<DueWord>)
    requires goal >= 1
  {
    if |due| > goal then Sorting.SortBy(due, Mastery)[..goal] else due
  }

  /** A day's list holds min(goal, due) words, all of them due that day; when some are left
      out, no kept word has a higher mastery than a word left out. */
  lemma DayWordsBounded(due: seq<DueWord>, goal: int)
    requires goal >= 1
    ensures |DayWords(due, goal)| == Min(goal, |due|)
    ensures multiset(DayWords(due, goal)) <= multiset(due)
    ensures |due| <= goal ==> DayWords(due, goal) == due
    ensures |due| > goal ==>
      var sorted := Sorting.SortBy(due, Mastery);
      DayWords(due, goal) == sorted[..goal]
      && forall i, j :: 0 <= i < goal <= j < |due| ==> sorted[i].mastery <= sorted[j].mastery
  {
    if |due| > goal {
      var sorted := Sorting.SortBy(due, Mastery);
      assert sorted == sorted[..goal] + sorted[goal..];
      assert multiset(sorted) == multiset(sorted[..goal]) + multiset(sorted[goal..]);
    }
  }

  /** The plan: one entry per day from the start day to the end day, in order. */
  function PlanSpec(words: seq<DueWord>, goal: int, startDay: int, endDay: int)
    : (plan: seq<DayPlan>)
    requires goal >= 1
    ensures |plan| == Max(0, endDay - startDay + 1)
    ensures forall k :: 0 <= k < |plan| ==> plan[k].day == startDay + k
    ensures forall k :: 0 <= k < |plan| ==>
      plan[k].words == DayWords(DueOn(words, startDay + k), goal)
  {
    seq(Max(0, endDay - startDay + 1),
        k requires 0 <= k => DayPlan(startDay + k, DayWords(DueOn(words, startDay + k), goal)))
  }

  /** Every planned word is one of the due words, planned on the day it is due, and a day
      never holds more than the goal. */
  lemma PlanWordsOnTheirDay(words: seq<DueWord>, goal: int, startDay: int, endDay: int,
                            k: int, w: DueWord)
    requires goal >= 1
    requires 0 <= k < |PlanSpec(words, goal, startDay, endDay)|
    ensures |PlanSpec(words, goal, startDay, endDay)[k].words| <= goal
    ensures w in PlanSpec(words, goal, startDay, endDay)[k].words ==>
      w in words && w.reviewDay == startDay + k
  {
    var due := DueOn(words, startDay + k);
    DayWordsBounded(due, goal);
    var kept := DayWords(due, goal);
    if w in kept {
      assert w in multiset(kept);
      assert w in multiset(due);
    }
  }

  /** The day loop: from the start day while not after the end day, list the words due that
      day, sorting and cutting them when there are more than the goal. */
  method GenerateDailyPlan(words: seq<DueWord>, dailyGoal: int, startDay: int, endDay: int)
    returns (plan: seq<DayPlan>)
    requires dailyGoal >= 1
    ensures plan == PlanSpec(words, dailyGoal, startDay, endDay)
  {
    var byDate := GroupByDate(words);
    plan := [];
    var current := startDay;
    while current <= endDay
      invariant startDay <= current <= Max(startDay, endDay + 1)
      invariant plan == PlanSpec(words, dailyGoal, startDay, current - 1)
      decreases endDay - current + 1
    {
      var dayWords: seq<DueWord> := [];
      GroupedIsDueOn(words, current);
      if current in byDate {
        var dueToday := byDate[current];
        if |dueToday| > dailyGoal {
          var sorted := Sorting.SortBy(dueToday, Mastery);
          dayWords := dayWords + sorted[..Min(dailyGoal, |sorted|)];
        } else {
          dayWords := dayWords + dueToday;
        }
      }
      assert dayWords == DayWords(DueOn(words, current), dailyGoal);
      plan := plan + [DayPlan(current, dayWords)];
      current := current + 1;
    }
  }
}
