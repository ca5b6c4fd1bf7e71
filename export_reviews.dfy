/** Exporting review sessions: request validation, the file extension for a format, the CSV and
    JSON escaping of values, and the per-session-type tallies of the report. */
module ExportReviews {
  import opened Common
  import Tally

  // ---------------------------------------------------------------------------
  // Formats
  // ---------------------------------------------------------------------------

  const SupportedFormats: set<string> := {"csv", "json", "pdf", "xlsx"}

  /** The extension of the exported file: a supported format in any letter case names its own
      extension, anything else gets "txt". */
  function FileExtension(format: string): (ext: string)
    ensures AsciiLower(format) in SupportedFormats ==> ext == AsciiLower(format)
    ensures AsciiLower(format) !in SupportedFormats ==> ext == "txt"
  {
    var f := AsciiLower(format);
    if f == "csv" then "csv"
    else if f == "json" then "json"
    else if f == "pdf" then "pdf"
    else if f == "xlsx" then "xlsx"
    else "txt"
  }

  lemma AsciiLowerIdempotent(s: string)
    ensures AsciiLower(AsciiLower(s)) == AsciiLower(s)
  {
  }

  /** The extension does not depend on letter case, and is one of five. */
  lemma FileExtensionIgnoresCase(format: string)
    ensures FileExtension(AsciiLower(format)) == FileExtension(format)
    ensures FileExtension(format) in SupportedFormats + {"txt"}
  {
    AsciiLowerIdempotent(format);
  }

  // ---------------------------------------------------------------------------
  // Request validation
  // ---------------------------------------------------------------------------

  /** The fields of an export request as the handler reads them. The ids and the date range
      have no default, so leaving them out gives None; the format defaults to "csv", so only an
      explicit JSON null gives None there (see `BindFormat`). */
  datatype ExportRequest = ExportRequest(reviewIds: Option<seq<int>>, dateRange: Option<string>,
                                         format: Option<string>)

  /** Which sessions the export reads: the listed ones, or those created between two dates. */
  datatype Selection = ByIds(ids: seq<int>) | ByDates(startDate: string, endDate: string)

  /** How a JSON request body carries a text field: left out, an explicit null, or a text. */
  datatype JsonField = Omitted | JsonNull | Given(text: string)

  /** The format field's default when the request body leaves it out. */
  const DefaultFormat := "csv"

  /** Binding the format field of the request body: a left-out field keeps the default, an
      explicit null replaces it with null. */
  function BindFormat(f: JsonField): (r: Option<string>)
    ensures r.None? <==> f.JsonNull?
    ensures f.Omitted? ==> r == Some(DefaultFormat)
    ensures f.Given? ==> r == Some(f.text)
  {
    match f
    case Omitted => Some(DefaultFormat)
    case JsonNull => None
    case Given(text) => Some(text)
  }

  const ValidationError := "VALIDATION_ERROR"
  /** An explicit null format fails when it is lower-cased, and the handler reports the exception. */
  const ExportError := "REVIEWS_EXPORT_ERROR"

  predicate HasIds(req: ExportRequest)
  {
    req.reviewIds.Some? && req.reviewIds.value != []
  }

  predicate HasDateRange(req: ExportRequest)
  {
    req.dateRange.Some? && req.dateRange.value != ""
  }

  /** The checks made before any session is read, in the order the handler makes them. */
  function ValidateRequest(req: ExportRequest): (r: Result<Selection>)
    ensures r.Ok? <==>
      (HasIds(req) || HasDateRange(req)) && req.format.Some?
      && AsciiLower(req.format.value) in SupportedFormats
      && (HasIds(req) || |JavaSplit(req.dateRange.value, ',')| == 2)
    ensures !HasIds(req) && !HasDateRange(req) ==> r == Err(ValidationError)
    ensures r.Err? ==> r.message in {ValidationError, ExportError}
    ensures r.Ok? && HasIds(req) ==> r.value == ByIds(req.reviewIds.value)
    ensures r.Ok? && !HasIds(req) ==>
      var parts := JavaSplit(req.dateRange.value, ',');
      r.value == ByDates(JavaTrim(parts[0]), JavaTrim(parts[1]))
  {
    if !HasIds(req) && !HasDateRange(req) then Err(ValidationError)
    else if req.format.None? then Err(ExportError)
    else if AsciiLower(req.format.value) !in SupportedFormats then Err(ValidationError)
    else if HasIds(req) then Ok(ByIds(req.reviewIds.value))
    else
      var parts := JavaSplit(req.dateRange.value, ',');
      if |parts| != 2 then Err(ValidationError)
      else Ok(ByDates(JavaTrim(parts[0]), JavaTrim(parts[1])))
  }

  /** A request that leaves the format out is exported as csv: it never ends in the export
      error, and listed ids are selected. Only an explicit null format ends in that error. */
  lemma OmittedFormatIsCsv(ids: Option<seq<int>>, dateRange: Option<string>)
    ensures ValidateRequest(ExportRequest(ids, dateRange, BindFormat(Omitted))) != Err(ExportError)
    ensures ids.Some? && ids.value != [] ==>
      ValidateRequest(ExportRequest(ids, dateRange, BindFormat(Omitted))) == Ok(ByIds(ids.value))
    ensures (ids.Some? && ids.value != []) || (dateRange.Some? && dateRange.value != "") ==>
      ValidateRequest(ExportRequest(ids, dateRange, BindFormat(JsonNull))) == Err(ExportError)
  {
    assert AsciiLower(DefaultFormat) == "csv";
  }

  /** "start,end" with a non-empty end selects the two trimmed dates. */
  lemma DateRangeTwoParts(a: string, b: string, format: string)
    requires ',' !in a && ',' !in b && b != ""
    requires AsciiLower(format) in SupportedFormats
    ensures ValidateRequest(ExportRequest(None, Some(a + "," + b), Some(format)))
      == Ok(ByDates(JavaTrim(a), JavaTrim(b)))
  {
    SplitTwo(a, b);
  }

  lemma SplitTwo(a: string, b: string)
    requires ',' !in a && ',' !in b && b != ""
    ensures JavaSplit(a + "," + b, ',') == [a, b]
  {
    SplitOnJoin([a, b], ',');
    assert Join([a, b], [',']) == a + "," + b;
    assert (a + "," + b)[|a|] == ',';
  }

  /** Trailing commas are dropped by the split, so "start,end,," is still two dates. */
  lemma DateRangeTrailingCommas(a: string, b: string, format: string)
    requires ',' !in a && ',' !in b && b != ""
    requires AsciiLower(format) in SupportedFormats
    ensures ValidateRequest(ExportRequest(None, Some(a + "," + b + ",,"), Some(format)))
      == Ok(ByDates(JavaTrim(a), JavaTrim(b)))
  {
    SplitTrailing(a, b);
  }

  lemma SplitTrailing(a: string, b: string)
    requires ',' !in a && ',' !in b && b != ""
    ensures JavaSplit(a + "," + b + ",,", ',') == [a, b]
  {
    var s := a + "," + b + ",,";
    SplitOnJoin([a, b, "", ""], ',');
    JoinTrailing(a, b);
    DropTwoEmpty(a, b);
    assert s[|a|] == ',';
  }

  lemma JoinTrailing(a: string, b: string)
    ensures Join([a, b, "", ""], [',']) == a + "," + b + ",,"
  {
    assert Join(["", ""], [',']) == ",";
    assert Join([b, "", ""], [',']) == b + ",," by {
      assert [b, "", ""][1..] == ["", ""];
    }
    assert [a, b, "", ""][1..] == [b, "", ""];
  }

  lemma DropTwoEmpty(a: string, b: string)
    requires b != ""
    ensures DropTrailingEmpty([a, b, "", ""]) == [a, b]
  {
    var xs := [a, b, "", ""];
    assert xs[3] == "" && xs[..3] == [a, b, ""];
    assert DropTrailingEmpty(xs) == DropTrailingEmpty([a, b, ""]);
    assert [a, b, ""][2] == "" && [a, b, ""][..2] == [a, b];
    assert DropTrailingEmpty([a, b, ""]) == DropTrailingEmpty([a, b]);
  }

  /** A third non-empty part is refused. */
  lemma DateRangeThreeParts(a: string, b: string, c: string, format: string)
    requires ',' !in a && ',' !in b && ',' !in c && c != ""
    requires AsciiLower(format) in SupportedFormats
    ensures ValidateRequest(ExportRequest(None, Some(a + "," + b + "," + c), Some(format)))
      == Err(ValidationError)
  {
    var s := a + "," + b + "," + c;
    SplitOnJoin([a, b, c], ',');
    assert Join([a, b, c], [',']) == s by {
      assert [a, b, c][1..] == [b, c];
      assert Join([b, c], [',']) == b + "," + c;
    }
    assert s[|a|] == ',';
  }

  // ---------------------------------------------------------------------------
  // Escaping
  // ---------------------------------------------------------------------------

  /** `String.replace` of one character by a text, at every occurrence. */
  function ReplaceChar(s: string, c: char, rep: string): (r: string)
    ensures c !in s ==> r == s
  {
    if s == [] then []
    else (if s[0] == c then rep else [s[0]]) + ReplaceChar(s[1..], c, rep)
  }

  lemma {:induction false} ReplaceConcat(a: string, b: string, c: char, rep: string)
    ensures ReplaceChar(a + b, c, rep) == ReplaceChar(a, c, rep) + ReplaceChar(b, c, rep)
  {
    if a != [] {
      var head := if a[0] == c then rep else [a[0]];
      var x, y := ReplaceChar(a[1..], c, rep), ReplaceChar(b, c, rep);
      assert (a + b)[0] == a[0] && (a + b)[1..] == a[1..] + b;
      assert ReplaceChar(a + b, c, rep) == head + ReplaceChar(a[1..] + b, c, rep);
      ReplaceConcat(a[1..], b, c, rep);
      assert ReplaceChar(a, c, rep) == head + x;
      assert head + (x + y) == (head + x) + y;
    } else {
      assert a + b == b;
    }
  }

  /** Every quote doubled. */
  function DoubleQuotes(s: string): (r: string)
    ensures '"' !in s ==> r == s
  {
    ReplaceChar(s, '"', "\"\"")
  }

  predicate NeedsQuoting(s: string)
  {
    ',' in s || '"' in s || '\n' in s
  }

  /** A CSV cell: "" for no value, the text itself when it holds no comma, quote or newline,
      and otherwise the text in quotes with each of its quotes doubled. */
  function EscapeCsv(v: Option<string>): (r: string)
    ensures v.None? ==> r == ""
    ensures v.Some? && !NeedsQuoting(v.value) ==> r == v.value
    ensures v.Some? && NeedsQuoting(v.value) ==>
      |r| >= 2 && r[0] == '"' && r[|r| - 1] == '"' && r[1..|r| - 1] == DoubleQuotes(v.value)
  {
    if v.None? then ""
    else if NeedsQuoting(v.value) then "\"" + DoubleQuotes(v.value) + "\""
    else v.value
  }

  /** Undoes the quote doubling: a doubled quote is read as one quote. */
  function UndoubleQuotes(s: string): (r: string)
    decreases |s|
  {
    if s == [] then []
    else if |s| >= 2 && s[0] == '"' && s[1] == '"' then ['"'] + UndoubleQuotes(s[2..])
    else [s[0]] + UndoubleQuotes(s[1..])
  }

  lemma {:induction false} UndoubleDoubleQuotes(s: string)
    ensures UndoubleQuotes(DoubleQuotes(s)) == s
  {
    if s != [] {
      UndoubleDoubleQuotes(s[1..]);
      var rest := DoubleQuotes(s[1..]);
      if s[0] == '"' {
        assert DoubleQuotes(s) == "\"\"" + rest;
        assert ("\"\"" + rest)[2..] == rest;
      } else {
        assert DoubleQuotes(s) == [s[0]] + rest;
        assert ([s[0]] + rest)[1..] == rest;
      }
    }
  }

  /** A quoted cell can be read back: strip the outer quotes and undouble the inner ones. */
  lemma EscapeCsvInvertible(s: string)
    ensures NeedsQuoting(s) ==>
      var r := EscapeCsv(Some(s)); UndoubleQuotes(r[1..|r| - 1]) == s
    ensures !NeedsQuoting(s) ==> EscapeCsv(Some(s)) == s
  {
    UndoubleDoubleQuotes(s);
  }

  /** The JSON escape of one character. */
  function EscapeJsonChar(c: char): (r: string)
  {
    if c == '\\' then "\\\\"
    else if c == '"' then "\\\""
    else if c == '\n' then "\\n"
    else if c == '\r' then "\\r"
    else if c == '\t' then "\\t"
    else [c]
  }

  /** Every character escaped on its own. */
  function EscapeJsonChars(s: string): (r: string)
    ensures '\n' !in r && '\r' !in r && '\t' !in r
    ensures |r| >= |s|
  {
    if s == [] then [] else EscapeJsonChar(s[0]) + EscapeJsonChars(s[1..])
  }

  /** The five replacements, applied one after the other as the source chains them. */
  function ReplaceJson(s: string): string
  {
    var s1 := ReplaceChar(s, '\\', "\\\\");
    var s2 := ReplaceChar(s1, '"', "\\\"");
    var s3 := ReplaceChar(s2, '\n', "\\n");
    var s4 := ReplaceChar(s3, '\r', "\\r");
    ReplaceChar(s4, '\t', "\\t")
  }

  /** A JSON string body: "" for no value, otherwise the text with backslash, quote, newline,
      carriage return and tab escaped; no raw newline, carriage return or tab remains. */
  function EscapeJson(v: Option<string>): (r: string)
    ensures v.None? ==> r == ""
    ensures v.Some? ==> r == EscapeJsonChars(v.value)
    ensures '\n' !in r && '\r' !in r && '\t' !in r
  {
    if v.None? then ""
    else
      ReplaceJsonPerChar(v.value);
      ReplaceJson(v.value)
  }

  lemma ReplaceJsonConcat(a: string, b: string)
    ensures ReplaceJson(a + b) == ReplaceJson(a) + ReplaceJson(b)
  {
    var a1 := ReplaceChar(a, '\\', "\\\\");
    var b1 := ReplaceChar(b, '\\', "\\\\");
    ReplaceConcat(a, b, '\\', "\\\\");
    var a2 := ReplaceChar(a1, '"', "\\\"");
    var b2 := ReplaceChar(b1, '"', "\\\"");
    ReplaceConcat(a1, b1, '"', "\\\"");
    var a3 := ReplaceChar(a2, '\n', "\\n");
    var b3 := ReplaceChar(b2, '\n', "\\n");
    ReplaceConcat(a2, b2, '\n', "\\n");
    var a4 := ReplaceChar(a3, '\r', "\\r");
    var b4 := ReplaceChar(b3, '\r', "\\r");
    ReplaceConcat(a3, b3, '\r', "\\r");
    ReplaceConcat(a4, b4, '\t', "\\t");
  }

  /** On one character, the chain of replacements is that character's escape: the backslash
      goes first, so the backslashes the later steps insert are not doubled again. */
  lemma ReplaceJsonChar(c: char)
    ensures ReplaceJson([c]) == EscapeJsonChar(c)
  {
  }

  lemma {:induction false} ReplaceJsonPerChar(s: string)
    ensures ReplaceJson(s) == EscapeJsonChars(s)
  {
    if s != [] {
      assert s == [s[0]] + s[1..];
      ReplaceJsonConcat([s[0]], s[1..]);
      ReplaceJsonChar(s[0]);
      ReplaceJsonPerChar(s[1..]);
    }
  }

  /** The reading of a JSON escape sequence's second character. */
  function UnescapeJsonChar(c: char): char
  {
    if c == 'n' then '\n' else if c == 'r' then '\r' else if c == 't' then '\t' else c
  }

  /** Reads a JSON string body back. */
  function UnescapeJson(s: string): (r: string)
    decreases |s|
  {
    if s == [] then []
    else if s[0] == '\\' && |s| >= 2 then [UnescapeJsonChar(s[1])] + UnescapeJson(s[2..])
    else [s[0]] + UnescapeJson(s[1..])
  }

  /** Escaped text reads back as the original. */
  lemma {:induction false} UnescapeEscapeJson(s: string)
    ensures UnescapeJson(EscapeJson(Some(s))) == s
  {
    EscapeJsonRoundTrip(s);
  }

  lemma {:induction false} EscapeJsonRoundTrip(s: string)
    ensures UnescapeJson(EscapeJsonChars(s)) == s
  {
    if s != [] {
      EscapeJsonRoundTrip(s[1..]);
      var e := EscapeJsonChar(s[0]);
      var rest := EscapeJsonChars(s[1..]);
      assert EscapeJsonChars(s) == e + rest;
      if |e| == 2 {
        assert (e + rest)[2..] == rest;
      } else {
        assert (e + rest)[1..] == rest;
      }
    }
  }

  // ---------------------------------------------------------------------------
  // Per-type tallies
  // ---------------------------------------------------------------------------

  /** The figures of a session that the report adds up. */
  datatype SessionInfo = SessionInfo(sessionType: string, totalItems: int, correctCount: int,
                                     wrongCount: int)

  function Types(sessions: seq<SessionInfo>): (types: seq<string>)
    ensures |types| == |sessions|
    ensures forall k :: 0 <= k < |sessions| ==> types[k] == sessions[k].sessionType
  {
    seq(|sessions|, k requires 0 <= k < |sessions| => sessions[k].sessionType)
  }

  /** Sessions per type: each session adds one under its type. */
  function CountByType(sessions: seq<SessionInfo>): (m: map<string, int>)
  {
    if sessions == [] then map[]
    else
      var last := sessions[|sessions| - 1];
      Tally.AddTo(CountByType(sessions[..|sessions| - 1]), last.sessionType, 1)
  }

  /** Items per type: each session adds its item count under its type. */
  function ItemsByType(sessions: seq<SessionInfo>): (m: map<string, int>)
  {
    if sessions == [] then map[]
    else
      var last := sessions[|sessions| - 1];
      Tally.AddTo(ItemsByType(sessions[..|sessions| - 1]), last.sessionType, last.totalItems)
  }

  /** Correct answers per type. */
  function CorrectByType(sessions: seq<SessionInfo>): (m: map<string, int>)
  {
    if sessions == [] then map[]
    else
      var last := sessions[|sessions| - 1];
      Tally.AddTo(CorrectByType(sessions[..|sessions| - 1]), last.sessionType, last.correctCount)
  }

  /** The three tallies list the same types: exactly those of the sessions. */
  lemma {:induction false} TallyKeys(sessions: seq<SessionInfo>)
    ensures CountByType(sessions).Keys == ItemsByType(sessions).Keys == CorrectByType(sessions).Keys
    ensures CountByType(sessions).Keys == set k | 0 <= k < |sessions| :: sessions[k].sessionType
  {
    if sessions != [] {
      var init := sessions[..|sessions| - 1];
      TallyKeys(init);
      assert (set k | 0 <= k < |sessions| :: sessions[k].sessionType)
          == (set k | 0 <= k < |init| :: init[k].sessionType) + {sessions[|sessions| - 1].sessionType};
    }
  }

  /** Counting sessions per type is counting the list of their types. */
  lemma {:induction false} CountByTypeIsCount(sessions: seq<SessionInfo>)
    ensures CountByType(sessions) == Tally.Count(Types(sessions))
  {
    if sessions != [] {
      var init := sessions[..|sessions| - 1];
      CountByTypeIsCount(init);
      assert Types(sessions)[..|sessions| - 1] == Types(init);
    }
  }

  function TotalItems(sessions: seq<SessionInfo>): int
  {
    if sessions == [] then 0 else TotalItems(sessions[..|sessions| - 1]) + sessions[|sessions| - 1].totalItems
  }

  function TotalCorrect(sessions: seq<SessionInfo>): int
  {
    if sessions == [] then 0 else TotalCorrect(sessions[..|sessions| - 1]) + sessions[|sessions| - 1].correctCount
  }

  /** The per-type loop of the report: sessions, items and correct answers per session type. */
  method TypeTallies(sessions: seq<SessionInfo>)
    returns (typeCount: map<string, int>, typeItems: map<string, int>, typeCorrect: map<string, int>)
    ensures typeCount == CountByType(sessions)
    ensures typeItems == ItemsByType(sessions)
    ensures typeCorrect == CorrectByType(sessions)
  {
    typeCount, typeItems, typeCorrect := map[], map[], map[];
    var i := 0;
    while i < |sessions|
      invariant 0 <= i <= |sessions|
      invariant typeCount == CountByType(sessions[..i])
      invariant typeItems == ItemsByType(sessions[..i])
      invariant typeCorrect == CorrectByType(sessions[..i])
    {
      var s := sessions[i];
      assert sessions[..i + 1][..i] == sessions[..i];
      typeCount := Tally.AddTo(typeCount, s.sessionType, 1);
      typeItems := Tally.AddTo(typeItems, s.sessionType, s.totalItems);
      typeCorrect := Tally.AddTo(typeCorrect, s.sessionType, s.correctCount);
      i := i + 1;
    }
    assert sessions[..|sessions|] == sessions;
  }

  /** The session counts per type add up to the number of sessions, and each is the number
      of sessions of that type. */
  lemma TypeCountsSum(sessions: seq<SessionInfo>)
    ensures Tally.SumValues(CountByType(sessions)) == |sessions|
    ensures forall t :: t in CountByType(sessions) ==>
      CountByType(sessions)[t] == multiset(Types(sessions))[t]
  {
    CountByTypeIsCount(sessions);
    Tally.CountSum(Types(sessions));
    Tally.CountOccurrences(Types(sessions));
  }

  /** The item counts per type add up to the total number of items. */
  lemma {:induction false} TypeItemsSum(sessions: seq<SessionInfo>)
    ensures Tally.SumValues(ItemsByType(sessions)) == TotalItems(sessions)
  {
    if sessions != [] {
      var init := sessions[..|sessions| - 1];
      var last := sessions[|sessions| - 1];
      TypeItemsSum(init);
      Tally.SumAddTo(ItemsByType(init), last.sessionType, last.totalItems);
    }
  }

  /** The correct counts per type add up to the total number of correct answers. */
  lemma {:induction false} TypeCorrectSum(sessions: seq<SessionInfo>)
    ensures Tally.SumValues(CorrectByType(sessions)) == TotalCorrect(sessions)
  {
    if sessions != [] {
      var init := sessions[..|sessions| - 1];
      var last := sessions[|sessions| - 1];
      TypeCorrectSum(init);
      Tally.SumAddTo(CorrectByType(init), last.sessionType, last.correctCount);
    }
  }

  /** The overall and per-type accuracy: a percentage of the items, 0 without items. */
  function AccuracyPercent(correct: int, items: int): (p: real)
    ensures items <= 0 ==> p == 0.0
    ensures 0 <= correct <= items ==> 0.0 <= p <= 100.0
    ensures items > 0 ==> p * items as real == correct as real * 100.0
  {
    if items > 0 then correct as real * 100.0 / items as real else 0.0
  }
}
