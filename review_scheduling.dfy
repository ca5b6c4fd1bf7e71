/** Submitting review results (single and batch submission share the same logic): each
    result moves the word's mastery level one step up or down inside 0..10, schedules the
    next review from a fixed interval table, and the session is summarised by counters.
    The vocabulary table is a map from user-vocabulary id to its row; dates are day numbers. */
module ReviewScheduling {
  import opened Common

  const MaxMastery: int := 10
  /** Rows at or above this level are flagged as mastered by the update statement. */
  const MasteredLevel: int := 8

  datatype VocabRow = VocabRow(word: string, mastery: int, reviewCount: int,
                               lastReviewed: int, nextReview: int, isMastered: bool)

  datatype UpdatedWord = UpdatedWord(id: int, word: string, mastery: int, reviewCount: int,
                                     nextReview: int)

  datatype ReviewResult = ReviewResult(wordId: Option<string>, correct: bool,
                                       responseTime: Option<int>)

  /** The running counters of the submission loop. */
  datatype Counters = Counters(correct: nat, responseTotal: int, responseCount: nat)

  datatype Progress = Progress(counters: Counters, updated: seq<UpdatedWord>,
                               rows: map<int, VocabRow>)

  datatype Summary = Summary(total: nat, correct: nat, incorrect: int, accuracy: real,
                             averageResponseTime: real, updated: seq<UpdatedWord>,
                             updatedCount: nat, rows: map<int, VocabRow>)

  // ---------------------------------------------------------------------------
  // Mastery and interval
  // ---------------------------------------------------------------------------

  /** One level up when correct (at most 10), one level down otherwise (at least 0). */
  function NextMastery(current: int, correct: bool): (level: int)
    ensures correct ==> level <= MaxMastery && (level == current + 1 || level == MaxMastery)
    ensures !correct ==> level >= 0 && (level == current - 1 || level == 0)
    ensures 0 <= current <= MaxMastery ==> 0 <= level <= MaxMastery
    ensures correct && current < MaxMastery ==> level == current + 1
    ensures !correct && current > 0 ==> level == current - 1
  {
    if correct then Min(current + 1, MaxMastery) else Max(current - 1, 0)
  }

  /** Days until the next review for a mastery level; levels outside 0..9 get 30. */
  function ReviewDays(level: int): (days: int)
    ensures days in {1, 2, 4, 7, 14, 30, 60, 90, 180, 365}
    ensures !(0 <= level <= 9) ==> days == 30
  {
    match level
    case 0 => 1
    case 1 => 2
    case 2 => 4
    case 3 => 7
    case 4 => 14
    case 5 => 30
    case 6 => 60
    case 7 => 90
    case 8 => 180
    case 9 => 365
    case _ => 30
  }

  /** The table is strictly increasing over levels 0..9, from one day to a year. */
  lemma ReviewDaysIncreasing(a: int, b: int)
    requires 0 <= a < b <= 9
    ensures ReviewDays(a) < ReviewDays(b)
    ensures ReviewDays(0) == 1 && ReviewDays(9) == 365
  {
    if b - a > 1 {
      ReviewDaysIncreasing(a, b - 1);
    }
  }

  /** Level 10 is reachable (a correct answer at level 9), yet it falls to the default of
      30 days, shorter than level 9's 365. */
  lemma TopLevelIntervalDrops()
    ensures NextMastery(9, true) == MaxMastery
    ensures ReviewDays(NextMastery(9, true)) == 30 < ReviewDays(9)
  {
  }

  /** The interval with level 10 sharing level 9's year, so that more mastery never means an
      earlier review. */
  function IntendedReviewDays(level: int): (days: int)
    ensures 0 <= level <= 9 ==> days == ReviewDays(level)
    ensures level == MaxMastery ==> days == 365
  {
    if level == MaxMastery then 365 else ReviewDays(level)
  }

  lemma IntendedReviewDaysMonotone(a: int, b: int)
    requires 0 <= a <= b <= MaxMastery
    ensures IntendedReviewDays(a) <= IntendedReviewDays(b)
  {
    if a < b && b <= 9 {
      ReviewDaysIncreasing(a, b);
    } else if a < b && a <= 9 {
      assert b == MaxMastery;
      if a < 9 { ReviewDaysIncreasing(a, 9); }
    }
  }

  // ---------------------------------------------------------------------------
  // One word
  // ---------------------------------------------------------------------------

  predicate ValidRows(rows: map<int, VocabRow>)
  {
    forall id :: id in rows ==> 0 <= rows[id].mastery <= MaxMastery
  }

  /** Updates one row: a missing row changes nothing and reports nothing; otherwise the new
      level, the review count plus one, the review date and the next review date are stored
      and reported. */
  function ReviewWord(rows: map<int, VocabRow>, id: int, correct: bool, today: int)
    : (r: (Option<UpdatedWord>, map<int, VocabRow>))
    ensures id !in rows ==> r.0 == None && r.1 == rows
    ensures id in rows ==> r.0.Some? && r.1.Keys == rows.Keys
    ensures id in rows ==>
      var w := r.0.value;
      && w.id == id && w.word == rows[id].word
      && w.reviewCount == rows[id].reviewCount + 1
      && w.mastery == NextMastery(rows[id].mastery, correct)
      && w.nextReview == today + ReviewDays(w.mastery)
      && r.1[id] == VocabRow(w.word, w.mastery, w.reviewCount, today, w.nextReview,
                             w.mastery >= MasteredLevel)
    ensures forall j :: j in rows && j != id ==> j in r.1 && r.1[j] == rows[j]
    ensures ValidRows(rows) ==> ValidRows(r.1)
  {
    if id !in rows then (None, rows)
    else
      var row := rows[id];
      var level := NextMastery(row.mastery, correct);
      var next := today + ReviewDays(level);
      var w := UpdatedWord(id, row.word, level, row.reviewCount + 1, next);
      (Some(w), rows[id := VocabRow(row.word, level, row.reviewCount + 1, today, next,
                                    level >= MasteredLevel)])
  }

  // ---------------------------------------------------------------------------
  // The submission loop
  // ---------------------------------------------------------------------------

  /** A result whose word id is missing or blank is skipped entirely. */
  predicate HasWordId(r: ReviewResult)
  {
    r.wordId.Some? && !JavaBlank(r.wordId.value)
  }

  predicate HasResponseTime(r: ReviewResult)
  {
    r.responseTime.Some? && r.responseTime.value > 0
  }

  /** The counters after one result that carries a word id. */
  function CountResult(c: Counters, r: ReviewResult): Counters
  {
    var correct := if r.correct then c.correct + 1 else c.correct;
    if HasResponseTime(r)
    then Counters(correct, c.responseTotal + r.responseTime.value, c.responseCount + 1)
    else Counters(correct, c.responseTotal, c.responseCount)
  }

  /** The table update for one result that carries a word id: an id that does not parse as an
      integer updates nothing. */
  function UpdateResult(p: Progress, r: ReviewResult, today: int): Progress
    requires r.wordId.Some?
  {
    match ParseJavaInt(r.wordId.value)
    case None => p
    case Some(id) =>
      var (w, rows') := ReviewWord(p.rows, id, r.correct, today);
      Progress(p.counters, if w.Some? then p.updated + [w.value] else p.updated, rows')
  }

  /** The effect of one result on the progress so far. */
  function Step(p: Progress, r: ReviewResult, today: int): Progress
  {
    if !HasWordId(r) then p
    else UpdateResult(Progress(CountResult(p.counters, r), p.updated, p.rows), r, today)
  }

  /** The progress after the given results, in order. */
  function Processed(results: seq<ReviewResult>, rows: map<int, VocabRow>, today: int)
    : (p: Progress)
  {
    if results == [] then Progress(Counters(0, 0, 0), [], rows)
    else Step(Processed(results[..|results| - 1], rows, today), results[|results| - 1], today)
  }

  /** Results that carry a word id and are correct. */
  function CorrectCount(results: seq<ReviewResult>): (n: nat)
    ensures n <= |results|
  {
    if results == [] then 0
    else
      var r := results[|results| - 1];
      CorrectCount(results[..|results| - 1]) + (if HasWordId(r) && r.correct then 1 else 0)
  }

  /** Results that carry a word id and a positive response time. */
  function TimedCount(results: seq<ReviewResult>): (n: nat)
    ensures n <= |results|
  {
    if results == [] then 0
    else
      var r := results[|results| - 1];
      TimedCount(results[..|results| - 1]) + (if HasWordId(r) && HasResponseTime(r) then 1 else 0)
  }

  function TimedTotal(results: seq<ReviewResult>): (t: int)
    ensures t >= 0
  {
    if results == [] then 0
    else
      var r := results[|results| - 1];
      TimedTotal(results[..|results| - 1])
        + (if HasWordId(r) && HasResponseTime(r) then r.responseTime.value else 0)
  }

  /** The counters depend only on the results, not on the vocabulary table: the correct
      answers among results with a word id, and the positive response times among them. */
  lemma {:induction false} ProcessedCounters(results: seq<ReviewResult>, rows: map<int, VocabRow>,
                                             today: int)
    ensures Processed(results, rows, today).counters
      == Counters(CorrectCount(results), TimedTotal(results), TimedCount(results))
  {
    if results != [] {
      ProcessedCounters(results[..|results| - 1], rows, today);
    }
  }

  /** Every reported word had a row before and its level stays in 0..10; no row is added or
      removed. */
  lemma {:induction false} ProcessedUpdates(results: seq<ReviewResult>, rows: map<int, VocabRow>,
                                            today: int)
    requires ValidRows(rows)
    ensures var p := Processed(results, rows, today);
      && p.rows.Keys == rows.Keys
      && ValidRows(p.rows)
      && forall k :: 0 <= k < |p.updated| ==>
           p.updated[k].id in rows && 0 <= p.updated[k].mastery <= MaxMastery
  {
    if results != [] {
      ProcessedUpdates(results[..|results| - 1], rows, today);
    }
  }

  /** A row that no result names is left exactly as it was. */
  lemma {:induction false} UnnamedRowUnchanged(results: seq<ReviewResult>, rows: map<int, VocabRow>,
                                             today: int, id: int)
    requires id in rows
    requires forall k :: 0 <= k < |results| && HasWordId(results[k])
               ==> ParseJavaInt(results[k].wordId.value) != Some(id)
    ensures id in Processed(results, rows, today).rows
    ensures Processed(results, rows, today).rows[id] == rows[id]
  {
    if results != [] {
      UnnamedRowUnchanged(results[..|results| - 1], rows, today, id);
    }
  }

  /** The loop of the submission: visits every result once, in order. */
  method ProcessResults(results: seq<ReviewResult>, rows: map<int, VocabRow>, today: int)
    returns (correct: nat, responseTotal: int, responseCount: nat,
             updated: seq<UpdatedWord>, updatedCount: nat, rowsOut: map<int, VocabRow>)
    ensures Progress(Counters(correct, responseTotal, responseCount), updated, rowsOut)
      == Processed(results, rows, today)
    ensures updatedCount == |updated|
  {
    correct, responseTotal, responseCount := 0, 0, 0;
    updated, updatedCount, rowsOut := [], 0, rows;
    var i := 0;
    while i < |results|
      invariant 0 <= i <= |results|
      invariant Progress(Counters(correct, responseTotal, responseCount), updated, rowsOut)
        == Processed(results[..i], rows, today)
      invariant updatedCount == |updated|
    {
      var r := results[i];
      assert results[..i + 1][..i] == results[..i];
      ghost var before := Processed(results[..i], rows, today);
      assert Processed(results[..i + 1], rows, today) == Step(before, r, today);
      if !HasWordId(r) {
        i := i + 1;
        continue;
      }
      if r.correct {
        correct := correct + 1;
      }
      if r.responseTime.Some? && r.responseTime.value > 0 {
        responseTotal := responseTotal + r.responseTime.value;
        responseCount := responseCount + 1;
      }
      ghost var counted := Progress(Counters(correct, responseTotal, responseCount), updated, rowsOut);
      assert counted == Progress(CountResult(before.counters, r), before.updated, before.rows);
      var parsed := ParseJavaInt(r.wordId.value);
      if parsed.Some? {
        var (w, rows') := ReviewWord(rowsOut, parsed.value, r.correct, today);
        rowsOut := rows';
        if w.Some? {
          updated := updated + [w.value];
          updatedCount := updatedCount + 1;
        }
      }
      assert Progress(Counters(correct, responseTotal, responseCount), updated, rowsOut)
        == UpdateResult(counted, r, today);
      i := i + 1;
    }
    assert results[..|results|] == results;
  }

  /** correct * 100 / total, or 0 for an empty session. */
  function Accuracy(correct: nat, total: nat): (a: real)
    ensures total == 0 ==> a == 0.0
    ensures correct <= total ==> 0.0 <= a <= 100.0
    ensures total > 0 && correct == total ==> a == 100.0
  {
    if total > 0 then (correct as real) * 100.0 / (total as real) else 0.0
  }

  /** The mean of the counted response times, or 0 when none was counted. */
  function AverageResponseTime(sum: int, count: nat): (a: real)
    ensures count == 0 ==> a == 0.0
    ensures sum >= 0 ==> a >= 0.0
  {
    if count > 0 then (sum as real) / (count as real) else 0.0
  }

  /** The whole submission: validation first, then the loop and the derived statistics. */
  method SubmitReview(results: seq<ReviewResult>, sessionId: Option<string>,
                      rows: map<int, VocabRow>, today: int)
    returns (r: Result<Summary>)
    ensures results == [] ==> r == Err("复习结果不能为空")
    ensures results != [] && (sessionId.None? || JavaBlank(sessionId.value))
      ==> r == Err("会话ID不能为空")
    ensures r.Ok? <==> results != [] && sessionId.Some? && !JavaBlank(sessionId.value)
    ensures r.Ok? ==>
      var s := r.value;
      var p := Processed(results, rows, today);
      && s.total == |results|
      && s.correct == CorrectCount(results) <= s.total
      && s.incorrect == s.total - s.correct >= 0
      && s.accuracy == Accuracy(s.correct, s.total)
      && s.averageResponseTime == AverageResponseTime(TimedTotal(results), TimedCount(results))
      && s.updated == p.updated && s.updatedCount == |s.updated| <= s.total
      && s.rows == p.rows
  {
    if results == [] {
      return Err("复习结果不能为空");
    }
    if sessionId.None? || JavaBlank(sessionId.value) {
      return Err("会话ID不能为空");
    }
    var correct, responseTotal, responseCount, updated, updatedCount, rowsOut :=
      ProcessResults(results, rows, today);
    ProcessedCounters(results, rows, today);
    ProcessedLength(results, rows, today);
    var total := |results|;
    var incorrect := total - correct;
    r := Ok(Summary(total, correct, incorrect, Accuracy(correct, total),
                    AverageResponseTime(responseTotal, responseCount), updated, updatedCount,
                    rowsOut));
  }

  /** At most one updated word per result. */
  lemma {:induction false} ProcessedLength(results: seq<ReviewResult>, rows: map<int, VocabRow>,
                                           today: int)
    ensures |Processed(results, rows, today).updated| <= |results|
  {
    if results != [] {
      ProcessedLength(results[..|results| - 1], rows, today);
    }
  }
}
