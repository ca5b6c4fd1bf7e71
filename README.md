# A verified model of the reading app's review, export and front-end helper logic

The reading app is a Spring back end with a Vue front end. Learners import vocabulary,
review words on a spaced-repetition schedule, follow a review plan and export their reviews
and study plans. The front end keeps documents, search history, feedback and offline data
locally. This project models the deterministic core of both halves in Dafny and proves what
that code promises.

- **Back end** (one module per Java class; dates are epoch-day numbers and the clock is a parameter):
  - `ReviewScheduling`: mastery steps and review intervals of `ReviewSubmit` and
    `ReviewBatchSubmit`, which share one logic, and the loop that counts a submission.
  - `Streaks`: the two streak calculations of `ReviewUpdatePlan` and `ReviewGetStats`, the
    longest-streak floor and the start of the week.
  - `ReviewPlan`: plan validation, the defaults and the dynamic SET clause of `ReviewUpdatePlan`.
  - `VocabularyImport`: the quote-aware CSV line parser, the column mapping, integer parsing,
    language detection and the import counters. `CsvRoundTrip` shows that the review export's
    escaped cells read back through this parser.
  - `ExportReviews` and `StudyPlan`: export validation, file extensions, CSV and JSON escaping,
    per-type tallies, and the day-by-day study plan.
  - `SessionStats`, `LearningStats` and `Notifications`: session statistics, duration
    display, relative times and the whitelisted query parameters.
- **Front end** (one module per JavaScript file; values are modelled by `JsValues`):
  - `Cache`: cache items, the in-memory cache manager, local-storage clean-up and memoisation.
  - `DocumentStore`: the document store as a class over shared document objects.
  - `SearchHistory`: search parameter checks, the local history and the result cache.
  - `Feedback`: feedback validation, permissions, votes, local search and statistics.
  - `Offline`: the simplified CSV export and import, import validation, retry counting and
    the sync-interval bounds.
  - `DataFormatter`: phone numbers, array display, deep clone and deep merge.
- **Shared**: `Common` holds strings, trimming, splitting, integer parsing and paging;
  `Sorting` is a stable sort by key; `Tally` holds per-key counters.

Code that changes state in place is modelled in that form. The cache manager, the memo
wrapper, the document store, the search service and the offline service are classes, and
loops are methods. Each is proved against a specification function whose properties are
proved as lemmas.

## Model

| member | source | states |
|---|---|---|
| ReviewScheduling.NextMastery | backend/src/main/java/com/vue/readingapp/review/ReviewSubmit.java:322-327 | a correct answer raises the level by one and at most to 10, a wrong one lowers it by one and at least to 0; a level in 0..10 stays in 0..10 |
| ReviewScheduling.ReviewDays | backend/src/main/java/com/vue/readingapp/review/ReviewSubmit.java:368-383 | the interval is one of 1, 2, 4, 7, 14, 30, 60, 90, 180 or 365 days, and every level outside 0..9 gets 30 |
| ReviewScheduling.ReviewDaysIncreasing | backend/src/main/java/com/vue/readingapp/review/ReviewSubmit.java:368-383 | over levels 0..9 the interval strictly increases, from 1 day at level 0 to 365 days at level 9 |
| ReviewScheduling.TopLevelIntervalDrops | backend/src/main/java/com/vue/readingapp/review/ReviewSubmit.java:322-330 | level 10 is reached by a correct answer at level 9, and its interval (30 days) is shorter than level 9's (365 days) |
| ReviewScheduling.IntendedReviewDays | backend/src/main/java/com/vue/readingapp/review/ReviewSubmit.java:368-383 | the corrected table: the source's interval for levels 0..9, and 365 days for level 10 |
| ReviewScheduling.IntendedReviewDaysMonotone | backend/src/main/java/com/vue/readingapp/review/ReviewSubmit.java:368-383 | with the corrected table, a higher level in 0..10 never gets a shorter interval |
| ReviewScheduling.ReviewWord | backend/src/main/java/com/vue/readingapp/review/ReviewSubmit.java:303-365 | a missing row reports nothing and changes nothing; otherwise the row gets the new level, review count plus one, today as review date, today plus the level's interval as next review, and the mastered flag for level 8 and above; every other row is unchanged and levels stay in 0..10 |
| ReviewScheduling.CorrectCount | backend/src/main/java/com/vue/readingapp/review/ReviewSubmit.java:233-242 | the number of results with a word id that are correct, at most the number of results |
| ReviewScheduling.TimedCount | backend/src/main/java/com/vue/readingapp/review/ReviewSubmit.java:244-248 | the number of results with a word id and a positive response time, at most the number of results |
| ReviewScheduling.TimedTotal | backend/src/main/java/com/vue/readingapp/review/ReviewSubmit.java:244-248 | the sum of the positive response times of results with a word id, never negative |
| ReviewScheduling.ProcessedCounters | backend/src/main/java/com/vue/readingapp/review/ReviewSubmit.java:233-259 | the loop's counters depend only on the results: correct answers and positive response times among results with a word id |
| ReviewScheduling.ProcessedUpdates | backend/src/main/java/com/vue/readingapp/review/ReviewSubmit.java:233-259 | the loop adds and removes no row, keeps every level in 0..10, and reports only words that had a row |
| ReviewScheduling.UnnamedRowUnchanged | backend/src/main/java/com/vue/readingapp/review/ReviewSubmit.java:233-259 | a row no result names is left exactly as it was |
| ReviewScheduling.ProcessedLength | backend/src/main/java/com/vue/readingapp/review/ReviewSubmit.java:250-256 | at most one updated word per result |
| ReviewScheduling.ProcessResults | backend/src/main/java/com/vue/readingapp/review/ReviewBatchSubmit.java:193-229 | the loop (the same in single and batch submission) visits every result once in order and ends with the counters, updated words and table of the specification; the batch counter of updated words is the number of updated words |
| ReviewScheduling.Accuracy | backend/src/main/java/com/vue/readingapp/review/ReviewSubmit.java:264 | 0 for an empty session, between 0 and 100 when correct answers do not exceed the total, and 100 when all are correct |
| ReviewScheduling.AverageResponseTime | backend/src/main/java/com/vue/readingapp/review/ReviewSubmit.java:265 | 0 when no time was counted, never negative for a non-negative sum |
| ReviewScheduling.SubmitReview | backend/src/main/java/com/vue/readingapp/review/ReviewSubmit.java:213-265 | empty results and then a missing or blank session id are refused with their messages, and only those; otherwise total is the number of results, correct is at most total, incorrect is total minus correct, the updated words are at most one per result, and accuracy and average follow the counters |
| Streaks.ConsecutiveDaysUnique | backend/src/main/java/com/vue/readingapp/review/ReviewUpdatePlan.java:612-640 | a run of consecutive review days ending at a day, followed by a day without review, has only one possible length |
| Streaks.WalkDown | backend/src/main/java/com/vue/readingapp/review/ReviewUpdatePlan.java:617-640 | the final walk of the plan's streak counts at most one per review day, and counts nothing unless the starting day has a review |
| Streaks.WalkDownConsecutive | backend/src/main/java/com/vue/readingapp/review/ReviewUpdatePlan.java:617-640 | on newest-first distinct days, the walk from a day counts exactly the run of consecutive review days ending there, and the day before the run has no review |
| Streaks.WalkDownAt | backend/src/main/java/com/vue/readingapp/review/ReviewUpdatePlan.java:626-636 | one step of the walk: an equal day counts one and moves the expected day back, an earlier day ends the walk, a later day is passed over |
| Streaks.PlanStreak | backend/src/main/java/com/vue/readingapp/review/ReviewUpdatePlan.java:538-640 | 0 without review days or without a review today; otherwise the walk's count from today, which on newest-first distinct days is the run of consecutive review days ending today |
| Streaks.SkipWalk | backend/src/main/java/com/vue/readingapp/review/ReviewGetStats.java:314-327 | the statistics loop counts at most the review days on or before the expected day |
| Streaks.CountAtMost | backend/src/main/java/com/vue/readingapp/review/ReviewGetStats.java:314-327 | the number of review days on or before a bound never exceeds the number of days |
| Streaks.CountAtMostMonotone | backend/src/main/java/com/vue/readingapp/review/ReviewGetStats.java:314-327 | a higher bound counts at least as many days |
| Streaks.CountAtMostBelowPresent | backend/src/main/java/com/vue/readingapp/review/ReviewGetStats.java:314-327 | a present day above the bound is left out of the count, so the count is below the number of days |
| Streaks.StatsStreakBounds | backend/src/main/java/com/vue/readingapp/review/ReviewGetStats.java:275-330 | the statistics streak is 0 exactly when neither today nor yesterday has a review, and never more than the number of review days |
| Streaks.StatsStreakSkipsGap | backend/src/main/java/com/vue/readingapp/review/ReviewGetStats.java:314-327 | reviews today, two and three days ago give a statistics streak of 2 although the consecutive run ending today has length 1 |
| Streaks.GetStatsStreak | backend/src/main/java/com/vue/readingapp/review/ReviewGetStats.java:275-330 | the three loops compute the statistics streak: 0 exactly when neither today nor yesterday has a review, at most the number of review days |
| Streaks.CurrentStreak | backend/src/main/java/com/vue/readingapp/review/ReviewGetStats.java:275-330 | the corrected statistics streak, anchored on today or else yesterday and ended by the first gap, is at most the number of review days |
| Streaks.CurrentStreakConsecutive | backend/src/main/java/com/vue/readingapp/review/ReviewGetStats.java:275-330 | the corrected streak is 0 exactly when neither today nor yesterday has a review, and otherwise is the run of consecutive review days ending at the anchor |
| Streaks.LongestStreak | backend/src/main/java/com/vue/readingapp/review/ReviewGetStats.java:340-345 | the longest streak is the current streak or 30, and never below either |
| Streaks.DayOfWeek | backend/src/main/java/com/vue/readingapp/review/ReviewGetStats.java:193 | the ISO day of the week is in 1..7 |
| Streaks.WeekStart | backend/src/main/java/com/vue/readingapp/review/ReviewGetStats.java:193 | the week starts on a Monday on or before today and less than seven days before it |
| Sorting.InsertBy | backend/src/main/java/com/vue/readingapp/export/ExportStudyPlan.java:291-295 | inserting one word into a list sorted by mastery gives a sorted permutation of the list plus the word |
| Sorting.SortBy | backend/src/main/java/com/vue/readingapp/export/ExportStudyPlan.java:291-295 | the list sorted by ascending mastery is a permutation of the input and sorted |
| Sorting.PrefixOfSortedIsLowest | backend/src/main/java/com/vue/readingapp/export/ExportStudyPlan.java:291-298 | after the sort every word kept in the first n has a mastery no higher than any word dropped after them |
| Tally.AddTo | backend/src/main/java/com/vue/readingapp/export/ExportReviews.java:654-659 | getOrDefault plus a weight stored back: the key is added, its counter grows by the weight from 0 when absent, and every other counter is unchanged |
| Tally.SumRemove | backend/src/main/java/com/vue/readingapp/export/ExportReviews.java:654-659 | the sum of all counters is one counter plus the sum of the rest, whichever entry is taken out |
| Tally.SumSplit | backend/src/main/java/com/vue/readingapp/export/ExportReviews.java:654-659 | the sum of all counters is a key's counter (0 when absent) plus the sum of the others |
| Tally.SumStore | backend/src/main/java/com/vue/readingapp/export/ExportReviews.java:654-659 | storing a value under a key makes the sum that value plus the sum of the other counters |
| Tally.SumAddTo | backend/src/main/java/com/vue/readingapp/export/ExportReviews.java:654-659 | adding a weight under one key adds that weight to the sum of all counters |
| Tally.CountKeys | backend/src/main/java/com/vue/readingapp/export/ExportReviews.java:654-659 | counting a list gives a counter for exactly the values that occur in it |
| Tally.CountOccurrences | backend/src/main/java/com/vue/readingapp/export/ExportReviews.java:654-659 | each value is counted as often as it occurs in the list |
| Tally.CountSum | backend/src/main/java/com/vue/readingapp/export/ExportReviews.java:654-659 | the counters of a counted list add up to its length |
| StudyPlan.ValidatePlanRequest | backend/src/main/java/com/vue/readingapp/export/ExportStudyPlan.java:133-156 | a request passes exactly when it has a non-empty start date, a non-empty end date and a daily goal in 1..100, and then unchanged; the start date is checked first, and a goal error only comes from a goal outside 1..100 |
| StudyPlan.DueOn | backend/src/main/java/com/vue/readingapp/export/ExportStudyPlan.java:267-275 | the words due on a day are exactly the listed words whose next review falls on that day |
| StudyPlan.GroupedIsDueOn | backend/src/main/java/com/vue/readingapp/export/ExportStudyPlan.java:267-275 | the grouping dictionary has a list exactly for the days some word is due, and that list is the words due that day in list order |
| StudyPlan.GroupByDate | backend/src/main/java/com/vue/readingapp/export/ExportStudyPlan.java:267-275 | the grouping loop builds the grouping dictionary |
| StudyPlan.DayWordsBounded | backend/src/main/java/com/vue/readingapp/export/ExportStudyPlan.java:285-301 | a day keeps min(goal, due) of its due words; all of them when they fit, otherwise the lowest-mastery ones after an ascending sort |
| StudyPlan.PlanSpec | backend/src/main/java/com/vue/readingapp/export/ExportStudyPlan.java:278-306 | the plan has one entry per day from start to end inclusive, in order, none when the end is before the start |
| StudyPlan.PlanWordsOnTheirDay | backend/src/main/java/com/vue/readingapp/export/ExportStudyPlan.java:278-306 | each day holds at most the daily goal, and every planned word is a due word planned on the day of its next review |
| StudyPlan.GenerateDailyPlan | backend/src/main/java/com/vue/readingapp/export/ExportStudyPlan.java:260-306 | the day loop builds the plan of the specification |
| ExportReviews.FileExtension | backend/src/main/java/com/vue/readingapp/export/ExportReviews.java:763-771 | a supported format in any letter case names its own extension (csv, json, pdf, xlsx); anything else gives txt |
| ExportReviews.AsciiLowerIdempotent | backend/src/main/java/com/vue/readingapp/export/ExportReviews.java:764 | lower-casing twice is lower-casing once |
| ExportReviews.FileExtensionIgnoresCase | backend/src/main/java/com/vue/readingapp/export/ExportReviews.java:763-771 | the extension does not depend on letter case and is one of the four formats or txt |
| ExportReviews.ValidateRequest | backend/src/main/java/com/vue/readingapp/export/ExportReviews.java:258-362 | the request passes exactly when it has review ids or a non-empty date range, a supported format in any case, and (without ids) a range that splits into two parts; without either selection it is a validation error; ids win over dates; the dates are the trimmed parts; a null format ends in the handler's export error |
| ExportReviews.OmittedFormatIsCsv | backend/src/main/java/com/vue/readingapp/export/ExportReviews.java:49-53 | a request body that leaves the format out keeps the default "csv" and so never ends in the export error, and its listed ids are selected; only an explicit null format ends in the export error |
| ExportReviews.DateRangeTwoParts | backend/src/main/java/com/vue/readingapp/export/ExportReviews.java:351-362 | "start,end" with a non-empty end selects the two trimmed dates |
| ExportReviews.SplitTwo | backend/src/main/java/com/vue/readingapp/export/ExportReviews.java:351 | splitting "a,b" on the comma gives a and b |
| ExportReviews.DateRangeTrailingCommas | backend/src/main/java/com/vue/readingapp/export/ExportReviews.java:351-358 | Java's split drops trailing empty parts, so "start,end,," still passes as two dates |
| ExportReviews.SplitTrailing | backend/src/main/java/com/vue/readingapp/export/ExportReviews.java:351 | splitting "a,b,," on the comma gives a and b |
| ExportReviews.JoinTrailing | backend/src/main/java/com/vue/readingapp/export/ExportReviews.java:351 | "a,b,," is the comma join of a, b and two empty parts |
| ExportReviews.DropTwoEmpty | backend/src/main/java/com/vue/readingapp/export/ExportReviews.java:351 | dropping trailing empty parts of a, b, "", "" with b non-empty leaves a and b |
| ExportReviews.DateRangeThreeParts | backend/src/main/java/com/vue/readingapp/export/ExportReviews.java:351-358 | a third non-empty part makes the range a validation error |
| ExportReviews.ReplaceChar | backend/src/main/java/com/vue/readingapp/export/ExportReviews.java:800 | replacing a character that does not occur leaves the text unchanged |
| ExportReviews.ReplaceConcat | backend/src/main/java/com/vue/readingapp/export/ExportReviews.java:800 | replacing a character in a concatenation is replacing it in each part |
| ExportReviews.DoubleQuotes | backend/src/main/java/com/vue/readingapp/export/ExportReviews.java:800 | a text without quotes is unchanged by doubling the quotes |
| ExportReviews.EscapeCsv | backend/src/main/java/com/vue/readingapp/export/ExportReviews.java:796-803 | no value gives ""; a text without comma, quote or newline is returned unchanged; otherwise the result is the text with every quote doubled, between two quotes |
| ExportReviews.UndoubleDoubleQuotes | backend/src/main/java/com/vue/readingapp/export/ExportReviews.java:800 | reading doubled quotes back as single quotes restores the text |
| ExportReviews.EscapeCsvInvertible | backend/src/main/java/com/vue/readingapp/export/ExportReviews.java:796-803 | a quoted cell reads back as the original text once the outer quotes are stripped and the inner ones undoubled |
| ExportReviews.EscapeJsonChars | backend/src/main/java/com/vue/readingapp/export/ExportReviews.java:785-793 | escaping every character on its own leaves no raw newline, carriage return or tab and never shortens the text |
| ExportReviews.EscapeJson | backend/src/main/java/com/vue/readingapp/export/ExportReviews.java:785-793 | no value gives ""; otherwise each character is escaped on its own, and the result has no raw newline, carriage return or tab |
| ExportReviews.ReplaceJsonConcat | backend/src/main/java/com/vue/readingapp/export/ExportReviews.java:787-792 | the chain of five replacements distributes over concatenation |
| ExportReviews.ReplaceJsonChar | backend/src/main/java/com/vue/readingapp/export/ExportReviews.java:787-792 | on one character the chain of replacements, backslash first, gives that character's own escape |
| ExportReviews.ReplaceJsonPerChar | backend/src/main/java/com/vue/readingapp/export/ExportReviews.java:787-792 | the chained replacements equal escaping each character on its own, because the backslash is replaced first |
| ExportReviews.UnescapeEscapeJson | backend/src/main/java/com/vue/readingapp/export/ExportReviews.java:785-793 | an escaped JSON string body reads back as the original text |
| ExportReviews.EscapeJsonRoundTrip | backend/src/main/java/com/vue/readingapp/export/ExportReviews.java:785-793 | the per-character escape reads back as the original text |
| ExportReviews.Types | backend/src/main/java/com/vue/readingapp/export/ExportReviews.java:654-659 | the session type of every session, in order |
| ExportReviews.TallyKeys | backend/src/main/java/com/vue/readingapp/export/ExportReviews.java:650-659 | the three per-type dictionaries list the same types, exactly those of the sessions |
| ExportReviews.CountByTypeIsCount | backend/src/main/java/com/vue/readingapp/export/ExportReviews.java:654-657 | counting sessions per type is counting the list of their types |
| ExportReviews.TypeTallies | backend/src/main/java/com/vue/readingapp/export/ExportReviews.java:650-659 | the loop fills the session, item and correct-answer counters per session type |
| ExportReviews.TypeCountsSum | backend/src/main/java/com/vue/readingapp/export/ExportReviews.java:654-659 | the per-type session counts add up to the number of sessions, and each is the number of sessions of that type |
| ExportReviews.TypeItemsSum | backend/src/main/java/com/vue/readingapp/export/ExportReviews.java:639-659 | the per-type item counts add up to the total number of items |
| ExportReviews.TypeCorrectSum | backend/src/main/java/com/vue/readingapp/export/ExportReviews.java:639-659 | the per-type correct counts add up to the total number of correct answers |
| ExportReviews.AccuracyPercent | backend/src/main/java/com/vue/readingapp/export/ExportReviews.java:642 | 0 without items, between 0 and 100 when the correct answers do not exceed the items, and otherwise exactly correct times 100 over items |
| SessionStats.CorrectCount | backend/src/main/java/com/vue/readingapp/review/ReviewGetSession.java:323-326 | the correct words are at most all words |
| SessionStats.TimedCount | backend/src/main/java/com/vue/readingapp/review/ReviewGetSession.java:328-331 | the words with a response time are at most all words |
| SessionStats.Languages | backend/src/main/java/com/vue/readingapp/review/ReviewGetSession.java:347-351 | the language of every word, in order |
| SessionStats.StatsCounts | backend/src/main/java/com/vue/readingapp/review/ReviewGetSession.java:307-355 | correct words are at most the total, correct plus incorrect is the total, the per-language counts are present exactly for a non-empty session and add up to the total |
| SessionStats.AccuracyIsPercentage | backend/src/main/java/com/vue/readingapp/review/ReviewGetSession.java:336 | the accuracy is between 0 and 100 |
| SessionStats.CalculateSessionStats | backend/src/main/java/com/vue/readingapp/review/ReviewGetSession.java:307-355 | the two loops produce the statistics of the specification: all zero for no words, otherwise the counters, accuracy, mean response time and per-language counts |
| SessionStats.CountLanguages | backend/src/main/java/com/vue/readingapp/review/ReviewGetSession.java:347-351 | getOrDefault plus one per word gives the count of each language |
| SessionStats.OccursEverywhere | backend/src/main/java/com/vue/readingapp/review/ReviewGetSession.java:381 | a language occurs as often as there are words exactly when every word has that language |
| SessionStats.DominantLanguage | backend/src/main/java/com/vue/readingapp/review/ReviewGetSession.java:369-379 | the walk ends with a count no lower than any language's, and, when it is above 0, a language that has that count |
| SessionStats.DetermineSessionLanguage | backend/src/main/java/com/vue/readingapp/review/ReviewGetSession.java:357-386 | the session language is the language all words share, and "mixed" for an empty session or mixed languages, whatever order the counts are walked in |
| LearningStats.NormalizePeriod | backend/src/main/java/com/vue/readingapp/user/UserGetLearningStats.java:219-229 | the period is one of day, week, month, year, all: the requested one when listed, else week |
| LearningStats.NormalizePeriodIdempotent | backend/src/main/java/com/vue/readingapp/user/UserGetLearningStats.java:219-229 | normalising a normalised period changes nothing |
| LearningStats.ShownDuration | backend/src/main/java/com/vue/readingapp/user/UserGetLearningStats.java:325-340 | seconds below 60, whole minutes below 3600, hours and remaining minutes below 86400, otherwise days and remaining hours; each form is the duration rounded down to its smallest unit |
| LearningStats.WholeUnitsShownAlone | backend/src/main/java/com/vue/readingapp/user/UserGetLearningStats.java:331-339 | whole hours and whole days are shown without a second unit |
| LearningStats.ShownDurationMonotone | backend/src/main/java/com/vue/readingapp/user/UserGetLearningStats.java:325-340 | a longer duration never shows a smaller leading number in the same unit |
| Notifications.RelativeTime | backend/src/main/java/com/vue/readingapp/notifications/NotificationGet.java:48-79 | no time gives the unknown text; otherwise just now below a minute, then minutes below an hour, hours below a day, days below a week, weeks below 28 days, months below 360 days and years from there on, each count being the elapsed time in its unit rounded down |
| Notifications.UnitSeconds | backend/src/main/java/com/vue/readingapp/notifications/NotificationGet.java:58-64 | every unit is a positive number of seconds |
| Notifications.DivDiv | backend/src/main/java/com/vue/readingapp/notifications/NotificationGet.java:58-64 | for a non-negative count, chained truncating divisions equal one division by the product |
| Notifications.ChainedDivisions | backend/src/main/java/com/vue/readingapp/notifications/NotificationGet.java:58-64 | the chained hours, days, weeks, months and years equal the seconds divided by each unit's length |
| Notifications.RelativeTimeShowsZero | backend/src/main/java/com/vue/readingapp/notifications/NotificationGet.java:72-75 | an elapsed time of 28 days shows "0个月前" and one of 360 days shows "0年前" |
| Notifications.CorrectedRelativeTime | backend/src/main/java/com/vue/readingapp/notifications/NotificationGet.java:48-79 | the corrected buckets never show a zero count, and every count shown is the elapsed time in its unit rounded down |
| Notifications.SortColumn | backend/src/main/java/com/vue/readingapp/notifications/NotificationGet.java:299-306 | the sort column is title, type, is_read or created_at: title and type as given, read as is_read, anything else created_at |
| Notifications.SortDirection | backend/src/main/java/com/vue/readingapp/notifications/NotificationGet.java:308 | DESC exactly when the order is "desc" in any letter case, otherwise ASC |
| Notifications.Offset | backend/src/main/java/com/vue/readingapp/notifications/NotificationGet.java:312 | the first page starts at 0 and no page starts before 0 |
| Notifications.PagesAdjacent | backend/src/main/java/com/vue/readingapp/notifications/NotificationGet.java:312 | each page starts where the one before it ends |
| VocabularyImport.Scan | backend/src/main/java/com/vue/readingapp/vocabulary/VocabularyImport.java:317-334 | reading the rest of a line never loses a field: it yields at least one field more than those already collected |
| VocabularyImport.ParseCsvLineSpec | backend/src/main/java/com/vue/readingapp/vocabulary/VocabularyImport.java:317-334 | a line always yields at least one field |
| VocabularyImport.ParseCsvLine | backend/src/main/java/com/vue/readingapp/vocabulary/VocabularyImport.java:317-334 | the character loop yields the fields of the specification, one more than the commas that lie outside quotes |
| VocabularyImport.FieldCount | backend/src/main/java/com/vue/readingapp/vocabulary/VocabularyImport.java:321-333 | a line yields one field more than its field-ending commas, reading a doubled quote inside quotes as one character |
| VocabularyImport.ScanPlain | backend/src/main/java/com/vue/readingapp/vocabulary/VocabularyImport.java:331 | characters other than quotes and field-ending commas are copied into the current field unchanged |
| VocabularyImport.PlainLineIsOneField | backend/src/main/java/com/vue/readingapp/vocabulary/VocabularyImport.java:317-334 | a line without quotes or commas is a single field equal to the line |
| VocabularyImport.ColumnNamesDistinct | backend/src/main/java/com/vue/readingapp/vocabulary/VocabularyImport.java:295-311 | the 13 column names are distinct |
| VocabularyImport.Columns | backend/src/main/java/com/vue/readingapp/vocabulary/VocabularyImport.java:295-311 | each name from a position on is bound to the cell at its position, and no other name is present |
| VocabularyImport.MapColumns | backend/src/main/java/com/vue/readingapp/vocabulary/VocabularyImport.java:295-315 | a row always has the 13 column names, each bound to the trimmed value at its position or "" past the end of the row |
| VocabularyImport.Cells | backend/src/main/java/com/vue/readingapp/vocabulary/VocabularyImport.java:313-315 | the first n cells of a row, trimmed, with "" past the end |
| VocabularyImport.ThirteenColumns | backend/src/main/java/com/vue/readingapp/vocabulary/VocabularyImport.java:295-311 | a mapped row has exactly 13 fields |
| VocabularyImport.DistinctCard | backend/src/main/java/com/vue/readingapp/vocabulary/VocabularyImport.java:295-311 | distinct names from a position on are as many as the positions |
| VocabularyImport.MappedValuesTrimmed | backend/src/main/java/com/vue/readingapp/vocabulary/VocabularyImport.java:313-315 | every mapped value is already trimmed |
| VocabularyImport.ParseInteger | backend/src/main/java/com/vue/readingapp/vocabulary/VocabularyImport.java:252-259 | no value for a missing or blank text; otherwise the trimmed text parsed as a 32-bit integer, no value when it does not parse |
| VocabularyImport.ParseIntegerPrinted | backend/src/main/java/com/vue/readingapp/vocabulary/VocabularyImport.java:252-259 | a printed 32-bit integer, padded with spaces or not, parses back to itself |
| VocabularyImport.Spaces | backend/src/main/java/com/vue/readingapp/vocabulary/VocabularyImport.java:255 | n spaces |
| VocabularyImport.TrimPadded | backend/src/main/java/com/vue/readingapp/vocabulary/VocabularyImport.java:255 | trimming removes the spaces padded around a text that neither starts nor ends with a trimmed character |
| VocabularyImport.NonBlankLines | backend/src/main/java/com/vue/readingapp/vocabulary/VocabularyImport.java:267 | the kept lines are the non-blank ones, no more than the file has |
| VocabularyImport.CsvItems | backend/src/main/java/com/vue/readingapp/vocabulary/VocabularyImport.java:261-276 | a file gives one item per non-blank line after the first non-blank one |
| VocabularyImport.ParseCsvFile | backend/src/main/java/com/vue/readingapp/vocabulary/VocabularyImport.java:261-276 | the line loop skips blank lines and the header line and maps every other line's fields to an item |
| VocabularyImport.DetectLanguage | backend/src/main/java/com/vue/readingapp/vocabulary/VocabularyImport.java:214-215 | "en" exactly when the normalised word is non-empty and every character is a Latin letter, white space, hyphen or apostrophe; otherwise "zh" |
| VocabularyImport.LanguageIgnoresCase | backend/src/main/java/com/vue/readingapp/vocabulary/VocabularyImport.java:214-215 | lower-casing a word does not change its language |
| VocabularyImport.Rows | backend/src/main/java/com/vue/readingapp/vocabulary/VocabularyImport.java:203-224 | at most one inserted row per item |
| VocabularyImport.BlankLines | backend/src/main/java/com/vue/readingapp/vocabulary/VocabularyImport.java:208-210 | at most one blank line per item, each a file line from 2 on (the header is line 1) |
| VocabularyImport.RowsAndBlanks | backend/src/main/java/com/vue/readingapp/vocabulary/VocabularyImport.java:203-224 | every item is either inserted or counted as failed |
| VocabularyImport.ErrorsFor | backend/src/main/java/com/vue/readingapp/vocabulary/VocabularyImport.java:209 | one error per blank line |
| VocabularyImport.ImportStep | backend/src/main/java/com/vue/readingapp/vocabulary/VocabularyImport.java:203-224 | a blank item adds its file line to the failures and an item with a word adds its row |
| VocabularyImport.Reported | backend/src/main/java/com/vue/readingapp/vocabulary/VocabularyImport.java:209 | the reported errors are the first 100 blank lines |
| VocabularyImport.ErrorsStep | backend/src/main/java/com/vue/readingapp/vocabulary/VocabularyImport.java:209 | a new blank line is reported only while fewer than 100 errors exist |
| VocabularyImport.ImportItems | backend/src/main/java/com/vue/readingapp/vocabulary/VocabularyImport.java:203-240 | every item is processed; the rows of items with a word are inserted in order and counted as imported; the blank ones are counted as failed; imported plus failed is the number processed; the errors are the first 100 blank lines |
| CsvRoundTrip.ScanQuoted | backend/src/main/java/com/vue/readingapp/vocabulary/VocabularyImport.java:321-333 | inside quotes, a text with doubled quotes and the closing quote reads back as the text |
| CsvRoundTrip.CellRoundTrip | backend/src/main/java/com/vue/readingapp/export/ExportReviews.java:796-803 | a cell escaped for the review export, followed by the end of the line or a comma, is read by the import parser as the original value |
| CsvRoundTrip.QuotedCell | backend/src/main/java/com/vue/readingapp/export/ExportReviews.java:799-800 | a quoted cell with doubled quotes reads back as the value |
| CsvRoundTrip.EscapeAll | backend/src/main/java/com/vue/readingapp/export/ExportReviews.java:796-803 | every value escaped as a CSV cell, in order |
| CsvRoundTrip.RowRoundTrip | backend/src/main/java/com/vue/readingapp/vocabulary/VocabularyImport.java:317-334 | escaped cells joined by commas are read back as the values, after the fields already collected |
| CsvRoundTrip.CommaEndsCell | backend/src/main/java/com/vue/readingapp/vocabulary/VocabularyImport.java:327-329 | a comma outside quotes ends the current field |
| CsvRoundTrip.ParseEscapedRow | backend/src/main/java/com/vue/readingapp/vocabulary/VocabularyImport.java:317-334 | any non-empty list of values, escaped as the review export does and joined by commas, is parsed by the import back to itself |
| ReviewPlan.Validate | backend/src/main/java/com/vue/readingapp/review/ReviewUpdatePlan.java:302-313 | a request passes exactly when its daily target, if given, is at least 1 and its weekly target, if given, lies in 1..7; a passing request is returned unchanged and a daily target below 1 gives the daily-target message first |
| ReviewPlan.Resolve | backend/src/main/java/com/vue/readingapp/review/ReviewUpdatePlan.java:325-332 | a request carrying no field resolves to the default plan (20 words, 5 days, 18:00, Monday to Friday, en, medium, active) |
| ReviewPlan.OrElse | backend/src/main/java/com/vue/readingapp/review/ReviewUpdatePlan.java:325-332 | a given field is kept and an absent one takes its default |
| ReviewPlan.ValidatedPlanInRange | backend/src/main/java/com/vue/readingapp/review/ReviewUpdatePlan.java:302-332 | a validated request resolves to a plan whose daily target is at least 1 and whose weekly target lies in 1..7, keeping every target and day list the request gives |
| ReviewPlan.Present | backend/src/main/java/com/vue/readingapp/review/ReviewUpdatePlan.java:340-363 | one presence flag for each of the seven optional columns |
| ReviewPlan.ColumnParams | backend/src/main/java/com/vue/readingapp/review/ReviewUpdatePlan.java:325-332 | one bound value for each of the seven columns, the day list bound as its comma-joined text |
| ReviewPlan.SelectUpTo | backend/src/main/java/com/vue/readingapp/review/ReviewUpdatePlan.java:340-363 | choosing the flagged columns among the first k yields at most k of them |
| ReviewPlan.SelectMembership | backend/src/main/java/com/vue/readingapp/review/ReviewUpdatePlan.java:340-363 | with distinct column names, a column is among the chosen ones exactly when it is flagged |
| ReviewPlan.SelectExcludes | backend/src/main/java/com/vue/readingapp/review/ReviewUpdatePlan.java:340-367 | a name that is not a column is never chosen |
| ReviewPlan.SelectSameLength | backend/src/main/java/com/vue/readingapp/review/ReviewUpdatePlan.java:340-363 | the SET items and the bound values chosen by the same flags have equal length |
| ReviewPlan.SelectSeven | backend/src/main/java/com/vue/readingapp/review/ReviewUpdatePlan.java:340-363 | choosing from seven columns is the seven conditional appends in column order |
| ReviewPlan.SelectSevenOf | backend/src/main/java/com/vue/readingapp/review/ReviewUpdatePlan.java:340-363 | the same seven conditional appends, stated for seven named columns |
| ReviewPlan.AppendIf | backend/src/main/java/com/vue/readingapp/review/ReviewUpdatePlan.java:340-343 | one guarded add appends the item when the field is present and leaves the list alone otherwise |
| ReviewPlan.BuildUpdate | backend/src/main/java/com/vue/readingapp/review/ReviewUpdatePlan.java:335-367 | the SET items are the optional items of the request followed by updated_at, and the parameters are their values followed by the update time |
| ReviewPlan.SetItemsSelect | backend/src/main/java/com/vue/readingapp/review/ReviewUpdatePlan.java:340-363 | the optional SET items are exactly the columns the request carries, in column order |
| ReviewPlan.SetParamsSelect | backend/src/main/java/com/vue/readingapp/review/ReviewUpdatePlan.java:340-363 | the bound values are exactly the resolved values of the columns the request carries, in column order |
| ReviewPlan.SetItemsSelectColumns | backend/src/main/java/com/vue/readingapp/review/ReviewUpdatePlan.java:340-367 | items and values correspond one to one, and updated_at never appears among the optional items |
| ReviewPlan.SetClauseColumns | backend/src/main/java/com/vue/readingapp/review/ReviewUpdatePlan.java:340-363 | the SET clause names a column exactly when the request carries that field |
| ReviewPlan.WeeklyTargetTotal | backend/src/main/java/com/vue/readingapp/review/ReviewUpdatePlan.java:485 | for a plan in the accepted ranges the weekly word total lies between one and seven days' worth and divides evenly back into the daily target |
| ReviewPlan.ProductOfTargets | backend/src/main/java/com/vue/readingapp/review/ReviewUpdatePlan.java:485 | a daily target of at least 1 times 1..7 days is between one and seven times the daily target and an exact multiple of the days |
| Cache.TimeToExpire | Desktop/vue-reading-app/src/services/utils/cache-manager.js:42-52 | the time left is never negative, is zero once the item has expired, and while positive adds up with the age to the item's lifetime |
| Cache.ExpiresRightAfterTimeRunsOut | Desktop/vue-reading-app/src/services/utils/cache-manager.js:42-52 | an item with no time left is expired at any later instant |
| Cache.GetOutcome | Desktop/vue-reading-app/src/services/utils/cache-manager.js:168-212 | a lookup hits exactly when the key is stored and not expired, returns the stored data, counts one hit or one miss, deletes an expired item and counts that delete, refreshes only the last access of a hit, and leaves every other key as it was |
| Cache.SetThenGet | Desktop/vue-reading-app/src/services/utils/cache-manager.js:129-212 | a value just set is read back exactly while the time since it was set does not exceed its lifetime |
| Cache.HitDoesNotRenew | Desktop/vue-reading-app/src/services/utils/cache-manager.js:196-198 | refreshing the last access on a hit does not change when the item expires |
| Cache.CacheManager.constructor | Desktop/vue-reading-app/src/services/utils/cache-manager.js:72-99 | a new manager is empty with zeroed counters and a thirty-minute default lifetime unless one is given |
| Cache.CacheManager.Set | Desktop/vue-reading-app/src/services/utils/cache-manager.js:129-160 | the key maps to a fresh item with the given lifetime, else the default, and only the set counter grows |
| Cache.CacheManager.Get | Desktop/vue-reading-app/src/services/utils/cache-manager.js:168-212 | the new store and counters and the returned value are those of the lookup outcome |
| Cache.CacheManager.Delete | Desktop/vue-reading-app/src/services/utils/cache-manager.js:220-241 | the key is removed and only the delete counter grows |
| Cache.CacheManager.Has | Desktop/vue-reading-app/src/services/utils/cache-manager.js:278-303 | true exactly when the key holds a live item; an expired item is deleted and one delete is counted; no other counter changes |
| Cache.CacheManager.Clear | Desktop/vue-reading-app/src/services/utils/cache-manager.js:249-270 | the store is emptied and the counters are kept |
| Cache.Candidates | Desktop/vue-reading-app/src/services/utils/cache-manager.js:843-861 | the candidates are drawn from the storage and all carry the adapter's prefix |
| Cache.KeysOf | Desktop/vue-reading-app/src/services/utils/cache-manager.js:866-867 | the key set holds exactly the keys of the listed entries |
| Cache.Without | Desktop/vue-reading-app/src/services/utils/cache-manager.js:866-867 | the remaining storage holds exactly the entries whose keys are not removed, in order |
| Cache.VictimsAreOldestHalf | Desktop/vue-reading-app/src/services/utils/cache-manager.js:843-868 | half the candidates, rounded down, are evicted, each taken from the candidates, none used more recently than one that stays, and entries without the prefix survive |
| Cache.Cleanup | Desktop/vue-reading-app/src/services/utils/cache-manager.js:843-868 | the remaining storage is the storage without the keys of the oldest half of the candidates |
| Cache.MemoStep | Desktop/vue-reading-app/src/services/utils/cache-manager.js:1137-1162 | a fresh entry is returned unchanged; otherwise the function's value is returned and stored with the call time; other keys are untouched |
| Cache.MemoTransparent | Desktop/vue-reading-app/src/services/utils/cache-manager.js:1137-1162 | a cache holding only the function's own values keeps doing so, and every call returns the function's value |
| Cache.MemoReusesWithinTtl | Desktop/vue-reading-app/src/services/utils/cache-manager.js:1147-1158 | after a computing call the entry stays fresh exactly for the lifetime, and a call within it returns the stored value without changing the cache |
| Cache.Memo.constructor | Desktop/vue-reading-app/src/services/utils/cache-manager.js:1137-1142 | the wrapper starts with an empty cache and a five-minute lifetime unless one is given |
| Cache.Memo.Call | Desktop/vue-reading-app/src/services/utils/cache-manager.js:1144-1162 | the returned value and new cache are those of one memoised step, and the wrapped function runs only when the entry was not fresh |
| DocumentStore.IdsOf | Desktop/vue-reading-app/src/stores/document.store.js:489-491 | the id list has one entry per document, in list order |
| DocumentStore.IndexOfId | Desktop/vue-reading-app/src/stores/document.store.js:205 | findIndex by id: the first position holding the id, or -1 exactly when no listed document has it |
| DocumentStore.AddAbsent | Desktop/vue-reading-app/src/stores/document.store.js:442-446 | the tag list keeps its prefix, ends up holding exactly the old tags and the added ones, and stays free of duplicates |
| DocumentStore.AddPresent | Desktop/vue-reading-app/src/stores/document.store.js:442-446 | adding only tags the list already holds changes nothing |
| DocumentStore.AddAbsentIdempotent | Desktop/vue-reading-app/src/stores/document.store.js:442-446 | adding the same tags twice is adding them once |
| DocumentStore.RemoveListed | Desktop/vue-reading-app/src/stores/document.store.js:469-471 | the kept tags are exactly the old ones not listed for removal, in order, with nothing removed when none is listed and no duplicates introduced |
| DocumentStore.RemoveListedIdempotent | Desktop/vue-reading-app/src/stores/document.store.js:469-471 | removing the same tags twice is removing them once |
| DocumentStore.Store.constructor | Desktop/vue-reading-app/src/stores/document.store.js:14-25 | the store starts with no documents, no open document, on page 1 with pages of 20 |
| DocumentStore.Store.CurrentPageDocuments | Desktop/vue-reading-app/src/stores/document.store.js:68-72 | at most a page of documents, and for a page inside the list exactly that page's slice |
| DocumentStore.Store.GetDocumentById | Desktop/vue-reading-app/src/stores/document.store.js:489-491 | a listed document with the id, or null exactly when no listed document has that id |
| DocumentStore.Store.AddDocument | Desktop/vue-reading-app/src/stores/document.store.js:203-213 | a document without an id is ignored, a listed id is replaced in place and a new one goes first, keeping ids unique |
| DocumentStore.Store.UpdateDocument | Desktop/vue-reading-app/src/stores/document.store.js:219-231 | the listed document with the id and the open one with the id are replaced; an unlisted id changes no list entry |
| DocumentStore.Store.RemoveDocument | Desktop/vue-reading-app/src/stores/document.store.js:237-247 | the first document with the id is removed, the open one is closed when it has the id, and with unique ids the id is gone from the list |
| DocumentStore.Store.SetCurrentDocument | Desktop/vue-reading-app/src/stores/document.store.js:253-255 | the given document becomes the open one |
| DocumentStore.Store.ToggleDocumentFavorite | Desktop/vue-reading-app/src/stores/document.store.js:398-408 | a document reached once is flipped and one reached as both the listed and the open document is flipped back; nothing else changes |
| DocumentStore.Store.ToggleDocumentPublic | Desktop/vue-reading-app/src/stores/document.store.js:414-424 | the same for the public flag |
| DocumentStore.Store.ToggleFavoriteOnce | Desktop/vue-reading-app/src/stores/document.store.js:398-408 | every document the action reaches is flipped exactly once, and nothing else changes |
| DocumentStore.Store.TogglePublicOnce | Desktop/vue-reading-app/src/stores/document.store.js:414-424 | every document the action reaches has its public flag flipped exactly once |
| DocumentStore.Store.ToggleFavoriteTwice | Desktop/vue-reading-app/src/stores/document.store.js:398-408 | two intended toggles restore every document's favourite flag |
| DocumentStore.Store.AddTagsTo | Desktop/vue-reading-app/src/stores/document.store.js:437-446 | one document's tags become its old tags, or none, with each absent tag appended; flags and progress are kept |
| DocumentStore.Store.AddDocumentTags | Desktop/vue-reading-app/src/stores/document.store.js:431-457 | every document reached gets the absent tags appended once, even when the open document is the listed one, and nothing else changes |
| DocumentStore.Store.RemoveDocumentTags | Desktop/vue-reading-app/src/stores/document.store.js:466-480 | every document reached that has a tag list loses the listed tags; a document without one is left alone |
| DocumentStore.Store.UpdateDocumentProgress | Desktop/vue-reading-app/src/stores/document.store.js:376-392 | every document reached records the progress, and the page when one is given, keeping its flags and tags |
| DocumentStore.ToggleOpenDocument | Desktop/vue-reading-app/src/stores/document.store.js:398-408 | opening a listed document and toggling its favourite flag leaves the flag false |
| DocumentStore.ToggleOpenDocumentOnce | Desktop/vue-reading-app/src/stores/document.store.js:398-408 | with the intended toggle the same scenario sets the flag |
| SearchHistory.ValidateSearchParams | Desktop/vue-reading-app/src/services/search.service.js:1013-1038 | the parameters pass exactly when the keyword is present, not blank and at most 200 characters, and each given type, page, page size and sort order is allowed; a missing or blank keyword is reported first |
| SearchHistory.WithoutSearch | Desktop/vue-reading-app/src/services/search.service.js:1174-1176 | the kept entries are exactly those for other searches, in order, and nothing is dropped when no entry matches |
| SearchHistory.WithoutSearchAppend | Desktop/vue-reading-app/src/services/search.service.js:1174-1176 | filtering a concatenation filters each part |
| SearchHistory.WithoutSearchDistinct | Desktop/vue-reading-app/src/services/search.service.js:1174-1176 | filtering keeps the history free of repeated searches |
| SearchHistory.SaveEntry | Desktop/vue-reading-app/src/services/search.service.js:1168-1193 | the new entry is first, the history holds between 1 and 50 entries, and every other entry is an older one for a different search |
| SearchHistory.SaveKeepsSearchesDistinct | Desktop/vue-reading-app/src/services/search.service.js:1168-1193 | saving keeps one entry per keyword and type |
| SearchHistory.SavedRest | Desktop/vue-reading-app/src/services/search.service.js:1168-1193 | after saving, the entries for other searches are a prefix of those before |
| SearchHistory.SaveAgainReplaces | Desktop/vue-reading-app/src/services/search.service.js:1168-1193 | saving the same search twice leaves the history as saving it only the second time |
| SearchHistory.LocalHistoryPage | Desktop/vue-reading-app/src/services/search.service.js:1301-1316 | the total is the history's length, the page defaults to 1 and the size to 20, and the items are that page of the history |
| SearchHistory.EveryEntryOnItsPage | Desktop/vue-reading-app/src/services/search.service.js:1307-1309 | with a positive page size every entry appears on the page its position gives, at its remainder |
| SearchHistory.PageStart | Desktop/vue-reading-app/src/services/search.service.js:1307-1308 | a position splits into a non-negative page start plus its remainder |
| SearchHistory.SliceAt | Desktop/vue-reading-app/src/services/search.service.js:1309 | inside the history, a slice holds at each offset the entry at the start plus that offset |
| SearchHistory.CacheLookup | Desktop/vue-reading-app/src/services/search.service.js:1112-1125 | a read gives the data exactly when the entry exists and is no older than the lifetime asked for, ten minutes when none is; a stale entry is deleted; the stored lifetime plays no part |
| SearchHistory.OutsideNamespace | Desktop/vue-reading-app/src/services/search.service.js:1221-1227 | the remaining entries are exactly those whose key lies outside the search namespace, unchanged |
| SearchHistory.SearchService.constructor | Desktop/vue-reading-app/src/services/search.service.js:12-29 | the service starts with an empty history and an empty cache |
| SearchHistory.SearchService.SaveToLocalStorage | Desktop/vue-reading-app/src/services/search.service.js:1168-1193 | the stored history becomes the saved history of the old one |
| SearchHistory.SearchService.GetFromCache | Desktop/vue-reading-app/src/services/search.service.js:1112-1125 | the result and the new cache are those of the cache read |
| SearchHistory.SearchService.SetToCache | Desktop/vue-reading-app/src/services/search.service.js:1134-1140 | the key maps to the data with the current time and the given lifetime, else ten minutes |
| SearchHistory.SearchService.ClearSearchHistoryCache | Desktop/vue-reading-app/src/services/search.service.js:1221-1227 | the cache keeps exactly its entries outside the namespace |
| Feedback.ValidateFeedbackData | Desktop/vue-reading-app/src/services/feedback.service.js:583-612 | the data pass exactly when present, with a non-blank title of at most 200 characters, non-blank content of at most 5000, and an allowed type and priority when given; missing data and a blank title are reported first |
| Feedback.CheckUpdatePermission | Desktop/vue-reading-app/src/services/feedback.service.js:678-696 | an update is allowed exactly for an administrator, or for the author when every changed field is the title, the content or the attachments |
| Feedback.CheckDeletePermission | Desktop/vue-reading-app/src/services/feedback.service.js:703-713 | deletion is allowed exactly for an administrator or the author |
| Feedback.UpdateImpliesDelete | Desktop/vue-reading-app/src/services/feedback.service.js:678-713 | whoever may update may delete, and deletion is allowed exactly when an empty update is |
| Feedback.RemoveAll | Desktop/vue-reading-app/src/services/feedback.service.js:753-769 | withdrawing a voter keeps every other voter, in order, and shortens the list exactly when the voter was listed |
| Feedback.RemoveAllKeepsDistinct | Desktop/vue-reading-app/src/services/feedback.service.js:753-769 | withdrawing from a list without repeats keeps it so and removes exactly one entry when the voter was listed |
| Feedback.ApplyVote | Desktop/vue-reading-app/src/services/feedback.service.js:744-779 | without a user or for another kind of vote nothing changes; otherwise the voter ends up on the chosen side and off the other, and non-negative counters stay non-negative |
| Feedback.VoteKeepsConsistent | Desktop/vue-reading-app/src/services/feedback.service.js:744-779 | a vote keeps the counters equal to the voter lists, no voter listed twice or on both sides, and the voter listed exactly once on the chosen side |
| Feedback.AppendFresh | Desktop/vue-reading-app/src/services/feedback.service.js:759-776 | appending an unlisted voter keeps the list free of repeats |
| Feedback.OnceIfNoDuplicates | Desktop/vue-reading-app/src/services/feedback.service.js:759-776 | in a list without repeats a listed voter occurs exactly once |
| Feedback.VoteIdempotent | Desktop/vue-reading-app/src/services/feedback.service.js:744-779 | voting the same way twice is voting once |
| Feedback.Filtered | Desktop/vue-reading-app/src/services/feedback.service.js:1117-1121 | the kept feedback is exactly the matching feedback, in list order |
| Feedback.LocalSearchFeedback | Desktop/vue-reading-app/src/services/feedback.service.js:1111-1140 | the total counts the matches of the lower-cased, trimmed keyword, and the items are at most a page of matches, each a matching listed feedback |
| Feedback.PageMembers | Desktop/vue-reading-app/src/services/feedback.service.js:1123-1125 | a page holds only elements of the list it is cut from |
| Feedback.BlankKeywordMatchesAll | Desktop/vue-reading-app/src/services/feedback.service.js:1113-1121 | a keyword that trims to nothing matches every feedback |
| Feedback.TypesOf | Desktop/vue-reading-app/src/services/feedback.service.js:1151 | the types of the feedback, one per item, in order |
| Feedback.StatusesOf | Desktop/vue-reading-app/src/services/feedback.service.js:1154 | the statuses of the feedback, one per item, in order |
| Feedback.PrioritiesOf | Desktop/vue-reading-app/src/services/feedback.service.js:1157 | the priorities of the feedback, one per item, in order |
| Feedback.CalculateLocalStatistics | Desktop/vue-reading-app/src/services/feedback.service.js:1142-1173 | the total is the list's length and the three maps count each type, status and priority as the reference tally does |
| Feedback.StatisticsStep | Desktop/vue-reading-app/src/services/feedback.service.js:1149-1158 | taking one more item adds one to its type, status and priority and nothing else |
| Feedback.StatisticsAddUp | Desktop/vue-reading-app/src/services/feedback.service.js:1142-1173 | each of the three tallies adds up to the number of feedback items |
| Offline.DetectFileFormat | Desktop/vue-reading-app/src/services/offline.service.js:1669-1680 | the format is csv exactly when the lower-cased name ends in .csv, and json otherwise |
| Offline.FirstNonArray | Desktop/vue-reading-app/src/services/offline.service.js:1776-1780 | every collection before the reported position is absent, falsy or an array, and the one at it is not |
| Offline.ValidateImportData | Desktop/vue-reading-app/src/services/offline.service.js:1765-1781 | data that is not a truthy object is refused first, then data without an object under data, then the first listed collection that is present but not an array; data is accepted exactly when none of these applies |
| Offline.Rows | Desktop/vue-reading-app/src/services/offline.service.js:1695-1705 | one row per item, in order, each the kind, id, quoted text and two timestamps |
| Offline.RowsStep | Desktop/vue-reading-app/src/services/offline.service.js:1695-1705 | one more item adds its row at the end |
| Offline.CsvLines | Desktop/vue-reading-app/src/services/offline.service.js:1687-1707 | the header, then one row per document, then one row per vocabulary item |
| Offline.ConvertToCsv | Desktop/vue-reading-app/src/services/offline.service.js:1687-1707 | the text is the header and data rows joined by line breaks |
| Offline.StripQuotes | Desktop/vue-reading-app/src/services/offline.service.js:1735 | at most one leading and one trailing double quote are removed, and a cell with neither is unchanged |
| Offline.Field | Desktop/vue-reading-app/src/services/offline.service.js:1734-1736 | a column name reads a value exactly when it is among the headers |
| Offline.FieldAt | Desktop/vue-reading-app/src/services/offline.service.js:1734-1736 | a header name that does not recur later reads the cell at its own position |
| Offline.HeaderFields | Desktop/vue-reading-app/src/services/offline.service.js:1687-1736 | under the exported header each of the five names reads its own column |
| Offline.StripQuoted | Desktop/vue-reading-app/src/services/offline.service.js:1695-1735 | a quoted cell loses exactly its two quotes |
| Offline.ParsedLines | Desktop/vue-reading-app/src/services/offline.service.js:1728-1753 | no more items are read than there are data lines |
| Offline.ParseCsv | Desktop/vue-reading-app/src/services/offline.service.js:1715-1756 | the documents and vocabulary read are those of the line-by-line reading: blank lines skipped, rows sorted by their type, every other row ignored |
| Offline.RowReadsBack | Desktop/vue-reading-app/src/services/offline.service.js:1695-1753 | an exported row of plain fields is not blank, reads its own kind and reads back as its item |
| Offline.ParsedLastRow | Desktop/vue-reading-app/src/services/offline.service.js:1728-1753 | a last line that is a row of a known kind adds its item to that kind's list |
| Offline.RowsReadBack | Desktop/vue-reading-app/src/services/offline.service.js:1695-1753 | rows of one kind after some lines add their items, in order, to that kind's list |
| Offline.BodyReadsBack | Desktop/vue-reading-app/src/services/offline.service.js:1687-1756 | the data lines of a plain export read back as its documents and vocabulary |
| Offline.LinesHaveNoBreak | Desktop/vue-reading-app/src/services/offline.service.js:1687-1707 | no exported line of a plain export holds a line break |
| Offline.CsvRoundTrip | Desktop/vue-reading-app/src/services/offline.service.js:1687-1756 | exporting plain documents and vocabulary and reading the text back gives every item in order, in its own list, with all four fields |
| Offline.CommaInTitleIsCut | Desktop/vue-reading-app/src/services/offline.service.js:1698-1736 | a title with a comma is cut there: its second half is read as the creation time and the creation time as the update time |
| Offline.Retried | Desktop/vue-reading-app/src/services/offline.service.js:1339-1344 | one more retry is counted, the id is kept, and the operation is failed exactly when the count reaches the maximum or it already was |
| Offline.FailsAfterMaxRetries | Desktop/vue-reading-app/src/services/offline.service.js:1339-1344 | from a fresh record the n-th retry leaves the count at n and the operation failed exactly when n has reached the maximum |
| Offline.OfflineService.constructor | Desktop/vue-reading-app/src/services/offline.service.js:13-25 | a service over the given database and queue with a maximum of three retries |
| Offline.OfflineService.UpdateRetryCount | Desktop/vue-reading-app/src/services/offline.service.js:1326-1349 | without a database or a stored record nothing changes; otherwise the stored record becomes its retried form |
| Offline.OfflineService.SetSyncInterval | Desktop/vue-reading-app/src/services/offline.service.js:1008-1034 | an interval within 1 to 1440 minutes is stored, and the call succeeds exactly when it is in range and the local database is open; an out-of-range interval is refused and the old one kept |
| DataFormatter.DigitsOnly | Desktop/vue-reading-app/src/services/utils/data-formatter.js:235 | only digits are kept, and never more characters than the input has |
| DataFormatter.DigitsOnlyAppend | Desktop/vue-reading-app/src/services/utils/data-formatter.js:235 | removing non-digits from a concatenation removes them from each part |
| DataFormatter.DigitsOnlyOfDigits | Desktop/vue-reading-app/src/services/utils/data-formatter.js:235 | a string of digits is left as it is |
| DataFormatter.FormatPhoneNumber | Desktop/vue-reading-app/src/services/utils/data-formatter.js:226-243 | a missing or empty number gives the empty string, another format returns the input unchanged, and with the default format three digits or fewer are returned as they are |
| DataFormatter.PhoneKeepsFirstElevenDigits | Desktop/vue-reading-app/src/services/utils/data-formatter.js:226-243 | with the default format and a separator without digits, the digits of the result are the first eleven digits of the input, in order |
| DataFormatter.TwoGroupDigits | Desktop/vue-reading-app/src/services/utils/data-formatter.js:239 | the digits of a two-group number are the digits it was made from |
| DataFormatter.ThreeGroupDigits | Desktop/vue-reading-app/src/services/utils/data-formatter.js:240 | the digits of a three-group number are the first digits it was made from, up to the cut |
| DataFormatter.PhoneLength | Desktop/vue-reading-app/src/services/utils/data-formatter.js:237-241 | with the default format the result is the kept digits, at most eleven, plus one separator per group boundary |
| DataFormatter.FormatArray | Desktop/vue-reading-app/src/services/utils/data-formatter.js:431-452 | a non-array shows as its text, an empty array as nothing, a short array as its items joined, and a long array as its first items, the separator, the ellipsis and the total count |
| DataFormatter.JoinAppend | Desktop/vue-reading-app/src/services/utils/data-formatter.js:447-451 | joining one more item adds the separator and that item |
| DataFormatter.ShortArraySplitsBack | Desktop/vue-reading-app/src/services/utils/data-formatter.js:447 | a short array joined with a one-character separator that no item holds splits back into its items |
| DataFormatter.LongArrayShowsFirstItems | Desktop/vue-reading-app/src/services/utils/data-formatter.js:450-451 | a long array's text splits into exactly its first items and one piece holding the ellipsis and the count |
| DataFormatter.DeepClone | Desktop/vue-reading-app/src/services/utils/data-formatter.js:719-742 | the clone is structurally equal to the input, for primitives, arrays and plain objects alike |
| DataFormatter.Copy | Desktop/vue-reading-app/src/services/utils/data-formatter.js:750-768 | merging a single argument keeps exactly its own keys |
| DataFormatter.MergeInto | Desktop/vue-reading-app/src/services/utils/data-formatter.js:753-765 | the result has the keys of the result so far and of the argument; untouched keys keep their value, a non-object value is copied, and a nested plain object gives a plain object |
| DataFormatter.MergeIntoEmpty | Desktop/vue-reading-app/src/services/utils/data-formatter.js:750-768 | merging into an empty result is the single-argument copy |
| DataFormatter.MergeIntoEmptyAt | Desktop/vue-reading-app/src/services/utils/data-formatter.js:750-768 | the same, one key at a time |
| DataFormatter.CopyOfObject | Desktop/vue-reading-app/src/services/utils/data-formatter.js:750-768 | copying a plain object gives back its fields |
| DataFormatter.SkipsNonObjects | Desktop/vue-reading-app/src/services/utils/data-formatter.js:754 | an argument that is falsy or not an object is skipped |
| DataFormatter.MergeOne | Desktop/vue-reading-app/src/services/utils/data-formatter.js:750-768 | merging one plain object gives a copy of it |
| DataFormatter.MergeIntoSelf | Desktop/vue-reading-app/src/services/utils/data-formatter.js:753-765 | merging a plain object into itself changes nothing |
| DataFormatter.MergeIdempotent | Desktop/vue-reading-app/src/services/utils/data-formatter.js:750-768 | merging a plain object with itself gives it back |
| DataFormatter.NestedObjectsMerge | Desktop/vue-reading-app/src/services/utils/data-formatter.js:758-759 | when the result so far and the argument both hold a plain object under a key, the merged object has the keys of both |
| DataFormatter.MergedKeys | Desktop/vue-reading-app/src/services/utils/data-formatter.js:750-768 | the merged object has exactly the own keys of its arguments |
| DataFormatter.DeepMerge | Desktop/vue-reading-app/src/services/utils/data-formatter.js:750-768 | the result is the left-to-right merge of the arguments into an empty object |
| DataFormatter.MergedSlot | Desktop/vue-reading-app/src/services/utils/data-formatter.js:757-762 | one key of the result holds the nested merge of a plain object, or the value itself otherwise |
| DataFormatter.MergedPair | Desktop/vue-reading-app/src/services/utils/data-formatter.js:750-768 | merging two arguments is merging the second into the copy of the first |
| DataFormatter.MergedBySlots | Desktop/vue-reading-app/src/services/utils/data-formatter.js:756-764 | a result that agrees with the merge key by key is the merge |
| DataFormatter.CopyKeys | Desktop/vue-reading-app/src/services/utils/data-formatter.js:756-764 | writing every own key of an argument gives its merge into the result so far |
| DataFormatter.WriteEntries | Desktop/vue-reading-app/src/services/utils/data-formatter.js:756-764 | after writing the entries, the result has the old and the new keys, untouched keys keep their value, and each written key holds what the source writes there |
| JsValues.IsPlainObject | Desktop/vue-reading-app/src/services/utils/data-formatter.js:758 | a value is a plain object exactly when it is truthy, of object type and not an array |
| JsValues.Get | Desktop/vue-reading-app/src/services/utils/data-formatter.js:759 | reading a field gives its value when a plain object holds it, and undefined otherwise |
| JsValues.IndexMap | Desktop/vue-reading-app/src/services/utils/data-formatter.js:733-738 | an array's own keys are exactly its index names, each holding the item at that index |
| JsValues.NatToStringInjective | Desktop/vue-reading-app/src/services/utils/data-formatter.js:733-738 | different indices have different names |
| JsValues.OwnEntries | Desktop/vue-reading-app/src/services/utils/data-formatter.js:733-757 | an object's own entries are its fields, an array's its indices, a primitive has none, and every entry is smaller than the value |
| Common.Trim | backend/src/main/java/com/vue/readingapp/review/ReviewSubmit.java:235 | the trimmed text is the contiguous middle piece of the input with only trimmed characters cut from either end and none left at its ends |
| Common.TrimEmptyIffAll | backend/src/main/java/com/vue/readingapp/review/ReviewSubmit.java:235 | trimming leaves nothing exactly when every character is trimmed |
| Common.JavaBlankIffTrimEmpty | backend/src/main/java/com/vue/readingapp/review/ReviewSubmit.java:235 | in Java, trim().isEmpty() holds exactly when every character is at most U+0020 |
| Common.JsBlankIffTrimEmpty | Desktop/vue-reading-app/src/services/search.service.js:1014 | in JavaScript, trim() leaves nothing exactly when every character is white space |
| Common.AsciiLower | Desktop/vue-reading-app/src/services/feedback.service.js:1113 | lower-casing keeps the length and maps each character on its own |
| Common.JsSlice | Desktop/vue-reading-app/src/services/search.service.js:1309 | a slice is never longer than the list nor than the range asked for, and inside the list it is that range |
| Common.Page | Desktop/vue-reading-app/src/stores/document.store.js:68-72 | a page holds at most a page size of items, and a page inside the list is exactly its slice |
| Common.PageLength | Desktop/vue-reading-app/src/stores/document.store.js:68-72 | with a non-negative page size a negative start comes with an end that is not after zero |
| Common.SplitOn | Desktop/vue-reading-app/src/services/offline.service.js:1717-1718 | splitting gives at least one piece and no piece holds the separator |
| Common.JoinSplitOn | Desktop/vue-reading-app/src/services/offline.service.js:1717 | splitting and joining again with the same separator gives back the text |
| Common.SplitOnJoin | Desktop/vue-reading-app/src/services/offline.service.js:1706-1717 | joining pieces without the separator and splitting again gives back the pieces |
| Common.JavaSplit | backend/src/main/java/com/vue/readingapp/export/ExportReviews.java:351 | Java's split gives the text itself when there is no separator, and otherwise the pieces without the trailing empty ones |
| Common.DropTrailingEmpty | backend/src/main/java/com/vue/readingapp/export/ExportReviews.java:351 | the kept pieces are a prefix ending in a non-empty piece, and every dropped piece is empty |
| Common.NatToString | backend/src/main/java/com/vue/readingapp/review/ReviewSubmit.java:252 | the decimal text of a number is non-empty, all digits and without a leading zero |
| Common.DigitsValueOfNatToString | backend/src/main/java/com/vue/readingapp/review/ReviewSubmit.java:252 | reading the decimal text of a number gives the number back |
| Common.ParseJavaInt | backend/src/main/java/com/vue/readingapp/review/ReviewSubmit.java:252 | a parsed value lies within the 32-bit range and comes from a non-empty text |
| Common.ParseIntToString | backend/src/main/java/com/vue/readingapp/review/ReviewSubmit.java:252 | printing a 32-bit integer and parsing it back gives the same integer |
| Common.ParseNeedsDigit | backend/src/main/java/com/vue/readingapp/review/ReviewSubmit.java:252 | a text without digits never parses |
| Common.CountEq | backend/src/main/java/com/vue/readingapp/export/ExportReviews.java:654-659 | an element is counted at most the list's length times, and zero times exactly when absent |

## Left out

- Database access, HTTP handling, authentication and logging around each endpoint are not modelled. The rows a query returns are parameters.
- The clock is a parameter everywhere; `LocalDate`/`LocalDateTime` parsing and formatting are not modelled, and dates are epoch-day numbers.
- Floating-point percentages and averages are exact `real` values; `Math.round` and two-decimal formatting are not modelled.
- Java `int` overflow of counters and sums is not modelled; integers are unbounded (integer parsing does keep the 32-bit range).
- Lower-casing, trimming and whitespace are modelled for ASCII and the listed JavaScript whitespace only; Unicode case mapping and UTF-16 lengths are not modelled.
- The order in which a Java `HashMap` or a JavaScript object lists its keys is not modelled; tallies are maps.
- ReviewBatchSubmit.java follows the same per-result logic as ReviewSubmit.java and is modelled by the same members; its response wrapper differs only in field names.
- The middle loop of `calculateStreakDays` in ReviewUpdatePlan.java (lines 583-609) is not modelled: its result is reset before use.
- The first batch loop of VocabularyImport.java (lines 171-190), which fills the shared word table, is database plumbing and is not modelled; neither is the exception branch of the import loop (lines 231-234).
- `parseTxtFile` in VocabularyImport.java and the text built by `generateExportContent` in ExportReviews.java are not modelled.
- A session word whose language is null in ReviewGetSession.java is not modelled (languages are strings), and neither are the total-pages fields of the paged responses.
- Cache: only the in-memory storage of the cache manager is modelled; the local-storage, session-storage and IndexedDB adapters are not, except the local-storage clean-up. `stats.size`, the key lists, tags, strategies, sync, export and import of the manager are not modelled.
- Cache.Memo: the resolver and key functions are the identity on the key; `cacheWrapper` awaits the function and is otherwise the same step, so it is modelled by the same class.
- DataFormatter.DeepClone: the clone is a fresh object in the source; values here have no identity, so the model states only structural equality. `Date` objects, `NaN` and the `String()` conversion of non-string array items are not modelled.
- DataFormatter.FormatPhoneNumber: a phone number given as a number rather than a string is not modelled.
- Feedback: `_validateFeedbackUpdateData`, `_formatFeedback` and the remote calls of the service are not modelled.
- Offline: the export timestamp that `_parseCSV` puts into its metadata is not modelled.
- Offline.OfflineService.SetSyncInterval: of the IndexedDB write only its failure without an open database is modelled. An open database is taken to store the setting; a write error it reports, which would also return false with the interval already changed, is not modelled, and neither is the restart of automatic sync. The minutes are an exact number, so a JavaScript `NaN`, which passes both bound checks and is then stored, is not modelled.
- Sorting.SortBy: stability is used by the model but not stated as a contract; the contract states sortedness and permutation.
- ReviewPlan.WeeklyTargetTotal: the bounds are stated only for plans within the accepted ranges, which are the plans validation lets through.
- SearchHistory.ValidateSearchParams: page numbers are integers, so the `Number.isInteger` check has nothing to reject.

## Findings

Each row below pairs a member that shows the discrepancy in the code as written with a corrected
definition and its proved property: `IntendedReviewDays`, `CurrentStreak`,
`CorrectedRelativeTime` and `ToggleFavoriteOnce` / `TogglePublicOnce` (with the scenario
`ToggleOpenDocumentOnce`). The endpoint and store models keep the behaviour as written, so each
finding can be read against the code it comes from.

| source | as written | input that shows it | evidently intended | confidence | as-written member | corrected member |
|---|---|---|---|---|---|---|
| backend/src/main/java/com/vue/readingapp/review/ReviewSubmit.java:322-383 | a correct answer at level 9 moves to level 10, which the interval table does not list, so it falls to the 30-day default | a word at level 9 answered correctly: next review in 30 days instead of 365 | level 10 is reviewed no sooner than level 9 | high (not executed) | ReviewScheduling.TopLevelIntervalDrops | ReviewScheduling.IntendedReviewDaysMonotone |
| backend/src/main/java/com/vue/readingapp/review/ReviewGetStats.java:314-327 | a review day older than the expected day restarts the walk from it, so days after a gap still count | reviews today, 2 days ago and 3 days ago: streak 2 | the streak is the run of consecutive review days ending today or yesterday | high (not executed) | Streaks.StatsStreakSkipsGap | Streaks.CurrentStreakConsecutive |
| backend/src/main/java/com/vue/readingapp/notifications/NotificationGet.java:58-75 | 28-29 days pass the week check and show a month count of 0; 360-364 days show a year count of 0 | a notification 28 days old shows "0个月前"; one 360 days old shows "0年前" | a relative time never shows a count of 0 | high (not executed) | Notifications.RelativeTimeShowsZero | Notifications.CorrectedRelativeTime |
| Desktop/vue-reading-app/src/stores/document.store.js:398-424 | when the open document is the very object in the list, the toggle flips it twice | add a document, open it with `getDocumentById`, toggle its favourite flag: it stays false | the toggle flips the flag once | medium (not executed) | DocumentStore.ToggleOpenDocument | DocumentStore.Store.ToggleFavoriteOnce |
