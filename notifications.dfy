/** The notification list: relative times such as "3小时前", and the whitelisted sort and
    paging parameters of its query. Times are whole seconds; the current time is a parameter. */
module Notifications {
  import opened Common

  datatype TimeUnit = Minute | Hour | Day | Week | Month | Year

  /** A relative time: unknown, just now, or a count of some unit ago. */
  datatype Relative = Unknown | JustNow | Ago(count: int, unit: TimeUnit)

  const SecondsPerDay := 86400

  function UnitText(u: TimeUnit): string
  {
    match u
    case Minute => "分钟前"
    case Hour => "小时前"
    case Day => "天前"
    case Week => "周前"
    case Month => "个月前"
    case Year => "年前"
  }

  /** The displayed text of a relative time. */
  function RelativeText(r: Relative): string
  {
    match r
    case Unknown => "未知时间"
    case JustNow => "刚刚"
    case Ago(n, u) => IntToString(n) + UnitText(u)
  }

  /** Truncating division of a 64-bit count, as Java's `/` on `long`. */
  function JavaDiv(a: int, b: int): int
    requires b > 0
  {
    if a >= 0 then a / b else -((-a) / b)
  }

  /** The relative time as the source computes it: minutes, hours, days, weeks, months (of 30
      days) and years (of 365 days) are derived from the elapsed seconds by chained truncating
      divisions, and the first bucket whose own count is small enough wins. */
  function RelativeTime(dateTime: Option<int>, now: int): (r: Relative)
    ensures dateTime.None? <==> r.Unknown?
    ensures dateTime.Some? ==> RelativeTimeBuckets(now - dateTime.value, r)
  {
    if dateTime.None? then Unknown
    else
      var seconds := now - dateTime.value;
      var minutes := JavaDiv(seconds, 60);
      var hours := JavaDiv(minutes, 60);
      var days := JavaDiv(hours, 24);
      var weeks := JavaDiv(days, 7);
      var months := JavaDiv(days, 30);
      var years := JavaDiv(days, 365);
      ChainedDivisions(seconds);
      if seconds < 60 then JustNow
      else if minutes < 60 then Ago(minutes, Minute)
      else if hours < 24 then Ago(hours, Hour)
      else if days < 7 then Ago(days, Day)
      else if weeks < 4 then Ago(weeks, Week)
      else if months < 12 then Ago(months, Month)
      else Ago(years, Year)
  }

  /** The bucket of each elapsed time, stated on the seconds: just now below a minute, then
      minutes below an hour, hours below a day, days below a week, weeks below 28 days, months
      below 360 days and years from there on, each count being the elapsed time in its unit,
      rounded down. */
  ghost predicate RelativeTimeBuckets(seconds: int, r: Relative)
  {
    (r.JustNow? <==> seconds < 60)
    && (r.Ago? && r.unit == Minute <==> 60 <= seconds < 3600)
    && (r.Ago? && r.unit == Hour <==> 3600 <= seconds < SecondsPerDay)
    && (r.Ago? && r.unit == Day <==> SecondsPerDay <= seconds < 7 * SecondsPerDay)
    && (r.Ago? && r.unit == Week <==> 7 * SecondsPerDay <= seconds < 28 * SecondsPerDay)
    && (r.Ago? && r.unit == Month <==> 28 * SecondsPerDay <= seconds < 360 * SecondsPerDay)
    && (r.Ago? && r.unit == Year <==> seconds >= 360 * SecondsPerDay)
    && (r.Ago? ==> r.count == seconds / UnitSeconds(r.unit))
  }

  function UnitSeconds(u: TimeUnit): (n: int)
    ensures n > 0
  {
    match u
    case Minute => 60
    case Hour => 3600
    case Day => SecondsPerDay
    case Week => 7 * SecondsPerDay
    case Month => 30 * SecondsPerDay
    case Year => 365 * SecondsPerDay
  }

  /** For a non-negative count, dividing in steps is dividing by the product. */
  lemma DivDiv(a: int, b: int, c: int)
    requires a >= 0 && b > 0 && c > 0
    ensures a / b / c == a / (b * c)
  {
    var q1, r1 := a / b, a % b;
    var q, r2 := q1 / c, q1 % c;
    assert a == q1 * b + r1;
    assert q1 == q * c + r2;
    Regroup(q, c, r2, b, r1);
    MulMonotone(r2, c - 1, b);
    assert (c - 1) * b == b * c - b;
    DivUnique(a, b * c, q, r2 * b + r1);
  }

  lemma Regroup(q: int, c: int, r2: int, b: int, r1: int)
    ensures (q * c + r2) * b + r1 == q * (b * c) + (r2 * b + r1)
  {
  }

  lemma MulMonotone(x: int, y: int, n: int)
    requires x <= y && n >= 0
    ensures x * n <= y * n
  {
  }

  lemma DivUnique(a: int, n: int, q: int, r: int)
    requires n > 0 && a == q * n + r && 0 <= r < n
    ensures a / n == q
  {
    var q0 := a / n;
    var r0 := a % n;
    var d := q - q0;
    assert d * n == q * n - q0 * n;
    assert d * n == r0 - r;
    if d >= 1 {
      MulAtLeast(d, n);
    } else if d <= -1 {
      MulAtLeast(-d, n);
    }
  }

  lemma MulAtLeast(x: int, n: int)
    requires x >= 1 && n > 0
    ensures x * n >= n
  {
  }

  lemma ChainedDivisions(seconds: int)
    ensures seconds >= 0 ==>
      var days := seconds / 60 / 60 / 24;
      seconds / 60 / 60 == seconds / 3600
      && days == seconds / SecondsPerDay
      && days / 7 == seconds / (7 * SecondsPerDay)
      && days / 30 == seconds / (30 * SecondsPerDay)
      && days / 365 == seconds / (365 * SecondsPerDay)
  {
    if seconds >= 0 {
      DivDiv(seconds, 60, 60);
      DivDiv(seconds, 3600, 24);
      DivDiv(seconds, SecondsPerDay, 7);
      DivDiv(seconds, SecondsPerDay, 30);
      DivDiv(seconds, SecondsPerDay, 365);
    }
  }

  /** Between 28 and 29 days, and between 360 and 364 days, the count shown is zero: the week
      bucket ends at 28 days but a month is counted as 30, and the month bucket ends at 12
      months of 30 days but a year is counted as 365. */
  lemma RelativeTimeShowsZero(then_: int)
    ensures RelativeTime(Some(then_), then_ + 28 * SecondsPerDay) == Ago(0, Month)
    ensures RelativeText(Ago(0, Month)) == "0个月前"
    ensures RelativeTime(Some(then_), then_ + 360 * SecondsPerDay) == Ago(0, Year)
    ensures RelativeText(Ago(0, Year)) == "0年前"
  {
    ChainedDivisions(28 * SecondsPerDay);
    ChainedDivisions(360 * SecondsPerDay);
  }

  /** The relative time with each bucket ending where the next unit's count reaches one: weeks
      up to 30 days, months up to 365 days. */
  function CorrectedRelativeTime(dateTime: Option<int>, now: int): (r: Relative)
    ensures dateTime.None? <==> r.Unknown?
    ensures r.Ago? ==> r.count >= 1
    ensures dateTime.Some? && r.Ago? ==>
      var seconds := now - dateTime.value;
      r.count * UnitSeconds(r.unit) <= seconds < (r.count + 1) * UnitSeconds(r.unit)
  {
    if dateTime.None? then Unknown
    else
      var seconds := now - dateTime.value;
      ChainedDivisions(seconds);
      var minutes := seconds / 60;
      var hours := minutes / 60;
      var days := hours / 24;
      var r :=
        if seconds < 60 then JustNow
        else if minutes < 60 then Ago(minutes, Minute)
        else if hours < 24 then Ago(hours, Hour)
        else if days < 7 then Ago(days, Day)
        else if days < 30 then Ago(days / 7, Week)
        else if days < 365 then Ago(days / 30, Month)
        else Ago(days / 365, Year);
      if r.Ago? then UnitBounds(seconds, r.unit); r else r
  }

  /** The count of whole units in a number of seconds lies between the unit's multiples. */
  lemma UnitBounds(seconds: int, u: TimeUnit)
    ensures var n := UnitSeconds(u);
      (seconds / n) * n <= seconds < (seconds / n + 1) * n
  {
  }

  // ---------------------------------------------------------------------------
  // Sorting and paging
  // ---------------------------------------------------------------------------

  const SortColumns: set<string> := {"title", "type", "is_read", "created_at"}

  /** The column to sort by: "title" and "type" as given, "read" as "is_read", anything else
      the creation time. */
  function SortColumn(sortBy: Option<string>): (col: string)
    ensures col in SortColumns
    ensures sortBy == Some("read") <==> col == "is_read"
    ensures sortBy.Some? && sortBy.value in {"title", "type"} ==> col == sortBy.value
    ensures (sortBy.None? || sortBy.value !in {"title", "type", "read"}) ==> col == "created_at"
  {
    if sortBy == Some("title") then "title"
    else if sortBy == Some("type") then "type"
    else if sortBy == Some("read") then "is_read"
    else "created_at"
  }

  /** Descending exactly for "desc" in any letter case, ascending otherwise. */
  function SortDirection(sortOrder: Option<string>): (dir: string)
    ensures dir == "DESC" <==> sortOrder.Some? && AsciiLower(sortOrder.value) == "desc"
    ensures dir == "DESC" || dir == "ASC"
  {
    if sortOrder.Some? && AsciiLower(sortOrder.value) == "desc" then "DESC" else "ASC"
  }

  /** The rows skipped before a page. */
  function Offset(page: int, pageSize: int): (offset: int)
    ensures page >= 1 && pageSize >= 0 ==> offset >= 0
    ensures page == 1 ==> offset == 0
  {
    (page - 1) * pageSize
  }

  /** Consecutive pages are adjacent: each starts where the one before ends. */
  lemma PagesAdjacent(page: int, pageSize: int)
    ensures Offset(page + 1, pageSize) == Offset(page, pageSize) + pageSize
  {
  }
}
