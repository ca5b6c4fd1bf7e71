/** The statistics of one review session's words, and the language of the session. */
module SessionStats {
  import opened Common
  import Tally

  /** A word of the session: whether it was answered correctly, its response time when one was
      recorded, and its language. */
  datatype SessionWord = SessionWord(correct: bool, responseTime: Option<int>, language: string)

  /** The statistics; the per-language counts are absent for an empty session. */
  datatype Stats = Stats(totalWords: int, correctWords: int, incorrectWords: int,
                         accuracy: real, averageResponseTime: real,
                         byLanguage: Option<map<string, int>>)

  function CorrectCount(words: seq<SessionWord>): (n: nat)
    ensures n <= |words|
  {
    if words == [] then 0
    else CorrectCount(words[..|words| - 1]) + (if words[|words| - 1].correct then 1 else 0)
  }

  /** The words with a recorded response time. */
  function TimedCount(words: seq<SessionWord>): (n: nat)
    ensures n <= |words|
  {
    if words == [] then 0
    else TimedCount(words[..|words| - 1]) + (if words[|words| - 1].responseTime.Some? then 1 else 0)
  }

  function TimedTotal(words: seq<SessionWord>): int
  {
    if words == [] then 0
    else
      var last := words[|words| - 1];
      TimedTotal(words[..|words| - 1]) + (if last.responseTime.Some? then last.responseTime.value else 0)
  }

  function Languages(words: seq<SessionWord>): (langs: seq<string>)
    ensures |langs| == |words|
    ensures forall k :: 0 <= k < |words| ==> langs[k] == words[k].language
  {
    seq(|words|, k requires 0 <= k < |words| => words[k].language)
  }

  /** What the statistics report for a list of words: all zero for none; otherwise the counts,
      accuracy as a percentage of all words, the mean of the recorded response times (0 when
      none) and the number of words per language. */
  function StatsOf(words: seq<SessionWord>): (s: Stats)
  {
    if words == [] then Stats(0, 0, 0, 0.0, 0.0, None)
    else
      var total := |words|;
      var correct := CorrectCount(words);
      var timed := TimedCount(words);
      Stats(total, correct, total - correct, correct as real / total as real * 100.0,
            if timed > 0 then TimedTotal(words) as real / timed as real else 0.0,
            Some(Tally.Count(Languages(words))))
  }

  /** The counters add up: correct and incorrect words make the total, and the per-language
      counts, present exactly when there are words, add up to the total as well. */
  lemma StatsCounts(words: seq<SessionWord>)
    ensures var s := StatsOf(words);
      0 <= s.correctWords <= s.totalWords == |words|
      && s.correctWords + s.incorrectWords == s.totalWords
      && (words == [] <==> s.byLanguage.None?)
      && (s.byLanguage.Some? ==> Tally.SumValues(s.byLanguage.value) == s.totalWords)
  {
    Tally.CountSum(Languages(words));
  }

  /** The accuracy is a percentage. */
  lemma AccuracyIsPercentage(words: seq<SessionWord>)
    ensures 0.0 <= StatsOf(words).accuracy <= 100.0
  {
    if words != [] {
      var total := |words| as real;
      var correct := CorrectCount(words) as real;
      assert 0.0 <= correct <= total;
      assert correct / total <= 1.0;
    }
  }

  /** The statistics loops: one pass for the correct answers and response times, one for the
      languages. */
  method CalculateSessionStats(words: seq<SessionWord>) returns (stats: Stats)
    ensures stats == StatsOf(words)
  {
    if words == [] {
      return Stats(0, 0, 0, 0.0, 0.0, None);
    }
    var totalWords := |words|;
    var correctWords := 0;
    var totalResponseTime := 0;
    var responseTimeCount := 0;
    var i := 0;
    while i < |words|
      invariant 0 <= i <= |words|
      invariant correctWords == CorrectCount(words[..i])
      invariant responseTimeCount == TimedCount(words[..i])
      invariant totalResponseTime == TimedTotal(words[..i])
    {
      var w := words[i];
      assert words[..i + 1][..i] == words[..i];
      if w.correct {
        correctWords := correctWords + 1;
      }
      if w.responseTime.Some? {
        totalResponseTime := totalResponseTime + w.responseTime.value;
        responseTimeCount := responseTimeCount + 1;
      }
      i := i + 1;
    }
    assert words[..|words|] == words;
    var incorrectWords := totalWords - correctWords;
    var accuracy := correctWords as real / totalWords as real * 100.0;
    var averageResponseTime := if responseTimeCount > 0
      then totalResponseTime as real / responseTimeCount as real else 0.0;
    var languageStats := CountLanguages(words);
    stats := Stats(totalWords, correctWords, incorrectWords, accuracy, averageResponseTime,
                   Some(languageStats));
  }

  /** `getOrDefault(lang, 0) + 1` for every word. */
  method CountLanguages(words: seq<SessionWord>) returns (counts: map<string, int>)
    ensures counts == Tally.Count(Languages(words))
  {
    counts := map[];
    var i := 0;
    while i < |words|
      invariant 0 <= i <= |words|
      invariant counts == Tally.Count(Languages(words[..i]))
    {
      assert words[..i + 1][..i] == words[..i];
      assert Languages(words[..i + 1])[..i] == Languages(words[..i]);
      counts := Tally.AddTo(counts, words[i].language, 1);
      i := i + 1;
    }
    assert words[..|words|] == words;
  }

  // ---------------------------------------------------------------------------
  // Session language
  // ---------------------------------------------------------------------------

  /** The session's language: the language of its words when they all share one, otherwise
      (and for an empty session) "mixed". */
  function SessionLanguage(words: seq<SessionWord>): (lang: string)
  {
    if words != [] && forall k :: 0 <= k < |words| ==> words[k].language == words[0].language
    then words[0].language
    else "mixed"
  }

  /** An element occurs as often as the length exactly when every element is that one. */
  lemma {:induction false} OccursEverywhere(s: seq<string>, x: string)
    ensures multiset(s)[x] <= |s|
    ensures multiset(s)[x] == |s| <==> forall k :: 0 <= k < |s| ==> s[k] == x
  {
    if s != [] {
      var init := s[..|s| - 1];
      OccursEverywhere(init, x);
      assert s == init + [s[|s| - 1]];
      assert multiset(s) == multiset(init) + multiset{s[|s| - 1]};
      if forall k :: 0 <= k < |init| ==> init[k] == x {
      } else {
        var k :| 0 <= k < |init| && init[k] != x;
        assert s[k] != x;
      }
    }
  }

  /** The walk over the counts: the first language with the highest count, in an order the
      dictionary chooses; "mixed" and 0 when there are no counts. */
  method DominantLanguage(counts: map<string, int>) returns (dominant: string, maxCount: int)
    ensures forall k :: k in counts ==> counts[k] <= maxCount
    ensures maxCount == 0 || (dominant in counts && counts[dominant] == maxCount)
    ensures maxCount >= 0
  {
    dominant := "mixed";
    maxCount := 0;
    var keys := counts.Keys;
    while keys != {}
      invariant keys <= counts.Keys
      invariant forall k :: k in counts && k !in keys ==> counts[k] <= maxCount
      invariant maxCount == 0 || (dominant in counts && counts[dominant] == maxCount)
      invariant maxCount >= 0
      decreases |keys|
    {
      var k :| k in keys;
      if counts[k] > maxCount {
        maxCount := counts[k];
        dominant := k;
      }
      keys := keys - {k};
    }
  }

  /** Counts the languages, then walks the counts in the dictionary's own order keeping the
      first language with the highest count; that language is the answer only when it covers
      every word. The walk order is left open: any order gives the same answer. */
  method DetermineSessionLanguage(words: seq<SessionWord>) returns (lang: string)
    ensures lang == SessionLanguage(words)
  {
    if words == [] {
      return "mixed";
    }
    var counts := CountLanguages(words);
    var langs := Languages(words);
    Tally.CountKeys(langs);
    Tally.CountOccurrences(langs);
    var dominant, maxCount := DominantLanguage(counts);
    assert langs[0] in counts;
    if maxCount == |words| {
      OccursEverywhere(langs, dominant);
      lang := dominant;
    } else {
      lang := "mixed";
      if forall k :: 0 <= k < |words| ==> words[k].language == words[0].language {
        OccursEverywhere(langs, words[0].language);
        OccursEverywhere(langs, dominant);
        assert false;
      }
    }
  }
}
