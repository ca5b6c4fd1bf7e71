/** The learning-statistics endpoint's period parameter and its display of study durations. */
module LearningStats {
  import opened Common

  const ValidPeriods: seq<string> := ["day", "week", "month", "year", "all"]

  /** The period used for the query: the requested one when it is in the list, else "week". */
  function NormalizePeriod(period: Option<string>): (p: string)
    ensures p in ValidPeriods
    ensures period.Some? && period.value in ValidPeriods ==> p == period.value
    ensures (period.None? || period.value !in ValidPeriods) ==> p == "week"
  {
    if period.Some? && period.value in ValidPeriods then period.value else "week"
  }

  /** Normalising twice changes nothing. */
  lemma NormalizePeriodIdempotent(period: Option<string>)
    ensures NormalizePeriod(Some(NormalizePeriod(period))) == NormalizePeriod(period)
  {
  }

  // ---------------------------------------------------------------------------
  // Durations
  // ---------------------------------------------------------------------------

  /** A duration as shown: plain seconds, whole minutes, hours and minutes, or days and hours. */
  datatype Shown = Seconds(s: int) | Minutes(m: int) | Hours(h: int, m: int) | Days(d: int, h: int)

  /** The units shown for a number of seconds: seconds below a minute, minutes below an hour,
      hours and minutes below a day, days and hours from a day on. Each form is the duration
      rounded down to its smallest unit. */
  function ShownDuration(seconds: int): (r: Shown)
    ensures seconds < 60 <==> r.Seconds?
    ensures r.Seconds? ==> r.s == seconds
    ensures r.Minutes? ==> 1 <= r.m < 60 && r.m * 60 <= seconds < r.m * 60 + 60
    ensures r.Hours? ==>
      (1 <= r.h < 24 && 0 <= r.m < 60
       && r.h * 3600 + r.m * 60 <= seconds < r.h * 3600 + r.m * 60 + 60)
    ensures r.Days? ==>
      (1 <= r.d && 0 <= r.h < 24
       && r.d * 86400 + r.h * 3600 <= seconds < r.d * 86400 + r.h * 3600 + 3600)
  {
    if seconds < 60 then Seconds(seconds)
    else if seconds < 3600 then Minutes(seconds / 60)
    else if seconds < 86400 then Hours(seconds / 3600, (seconds % 3600) / 60)
    else Days(seconds / 86400, (seconds % 86400) / 3600)
  }

  /** The text of each form; a zero second unit is left out. */
  function Render(d: Shown): (text: string)
  {
    match d
    case Seconds(s) => IntToString(s) + "秒"
    case Minutes(m) => IntToString(m) + "分钟"
    case Hours(h, m) => IntToString(h) + "小时" + (if m > 0 then IntToString(m) + "分钟" else "")
    case Days(d, h) => IntToString(d) + "天" + (if h > 0 then IntToString(h) + "小时" else "")
  }

  function FormatDuration(seconds: int): (text: string)
  {
    Render(ShownDuration(seconds))
  }

  /** Whole hours and whole days are shown without a second unit. */
  lemma WholeUnitsShownAlone(h: int, d: int)
    requires 1 <= h < 24 && d >= 1
    ensures FormatDuration(h * 3600) == IntToString(h) + "小时"
    ensures FormatDuration(d * 86400) == IntToString(d) + "天"
  {
    assert (h * 3600) / 3600 == h && (h * 3600) % 3600 == 0;
    assert (d * 86400) / 86400 == d && (d * 86400) % 86400 == 0;
  }

  /** A longer duration never shows a smaller leading number in the same unit. */
  lemma ShownDurationMonotone(a: int, b: int)
    requires 60 <= a <= b
    ensures ShownDuration(a).Minutes? && ShownDuration(b).Minutes? ==>
      ShownDuration(a).m <= ShownDuration(b).m
    ensures ShownDuration(a).Hours? && ShownDuration(b).Hours? ==>
      ShownDuration(a).h <= ShownDuration(b).h
    ensures ShownDuration(a).Days? && ShownDuration(b).Days? ==>
      ShownDuration(a).d <= ShownDuration(b).d
  {
    DivMonotone(a, b, 60);
    DivMonotone(a, b, 3600);
    DivMonotone(a, b, 86400);
  }

  lemma DivMonotone(a: int, b: int, n: int)
    requires 0 <= a <= b && n > 0
    ensures a / n <= b / n
  {
    var qa, qb := a / n, b / n;
    assert qa * n <= a && b < qb * n + n;
    assert qa * n < (qb + 1) * n;
    MulCancel(qa, qb + 1, n);
  }

  lemma MulCancel(x: int, y: int, n: int)
    requires n > 0 && x * n < y * n
    ensures x < y
  {
  }
}
