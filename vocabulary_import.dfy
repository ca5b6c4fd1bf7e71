/** Importing a vocabulary list from CSV: the quote-aware line parser, the mapping of the 13
    columns to named fields, integer parsing, skipping of blank lines and the header, language
    detection, and the counters of the import loop. The file arrives as its lines. */
module VocabularyImport {
  import opened Common

  // ---------------------------------------------------------------------------
  // One CSV line
  // ---------------------------------------------------------------------------

  /** The parser's reading of the rest `s` of a line, in quote state `inQuotes`, with the field
      read so far `cur` and the finished fields `acc`: a doubled quote inside quotes is one
      literal quote, any other quote flips the state, a comma outside quotes ends a field. */
  function Scan(s: string, inQuotes: bool, cur: string, acc: seq<string>): (fields: seq<string>)
    ensures |fields| >= |acc| + 1
    decreases |s|
  {
    if s == [] then acc + [cur]
    else if s[0] == '"' then
      if inQuotes && |s| > 1 && s[1] == '"' then Scan(s[2..], inQuotes, cur + ['"'], acc)
      else Scan(s[1..], !inQuotes, cur, acc)
    else if s[0] == ',' && !inQuotes then Scan(s[1..], inQuotes, "", acc + [cur])
    else Scan(s[1..], inQuotes, cur + [s[0]], acc)
  }

  function ParseCsvLineSpec(line: string): (fields: seq<string>)
    ensures |fields| >= 1
  {
    Scan(line, false, "", [])
  }

  /** The character-by-character loop of the parser. */
  method ParseCsvLine(line: string) returns (values: seq<string>)
    ensures values == ParseCsvLineSpec(line)
    ensures |values| == UnquotedCommas(line, false) + 1
  {
    values := [];
    var sb := "";
    var inQuotes := false;
    var i := 0;
    while i < |line|
      invariant 0 <= i <= |line|
      invariant Scan(line[i..], inQuotes, sb, values) == ParseCsvLineSpec(line)
    {
      var c := line[i];
      if c == '"' {
        if inQuotes && i + 1 < |line| && line[i + 1] == '"' {
          sb := sb + ['"'];
          i := i + 1;
        } else {
          inQuotes := !inQuotes;
        }
      } else if c == ',' && !inQuotes {
        values := values + [sb];
        sb := "";
      } else {
        sb := sb + [c];
      }
      i := i + 1;
    }
    values := values + [sb];
    FieldCount(line, false, "", []);
  }

  /** The commas that end a field: those outside quotes, with doubled quotes inside quotes read
      as one character. */
  function UnquotedCommas(s: string, inQuotes: bool): (n: nat)
    decreases |s|
  {
    if s == [] then 0
    else if s[0] == '"' then
      if inQuotes && |s| > 1 && s[1] == '"' then UnquotedCommas(s[2..], inQuotes)
      else UnquotedCommas(s[1..], !inQuotes)
    else if s[0] == ',' && !inQuotes then 1 + UnquotedCommas(s[1..], inQuotes)
    else UnquotedCommas(s[1..], inQuotes)
  }

  /** A line yields one field more than it has field-ending commas. */
  lemma {:induction false} FieldCount(s: string, inQuotes: bool, cur: string, acc: seq<string>)
    ensures |Scan(s, inQuotes, cur, acc)| == |acc| + UnquotedCommas(s, inQuotes) + 1
    decreases |s|
  {
    if s == [] {
    } else if s[0] == '"' {
      if inQuotes && |s| > 1 && s[1] == '"' {
        FieldCount(s[2..], inQuotes, cur + ['"'], acc);
      } else {
        FieldCount(s[1..], !inQuotes, cur, acc);
      }
    } else if s[0] == ',' && !inQuotes {
      FieldCount(s[1..], inQuotes, "", acc + [cur]);
    } else {
      FieldCount(s[1..], inQuotes, cur + [s[0]], acc);
    }
  }

  /** Characters other than quotes and commas are copied into the current field unchanged. */
  lemma {:induction false} ScanPlain(v: string, t: string, inQuotes: bool, cur: string,
                                     acc: seq<string>)
    requires '"' !in v && (inQuotes || ',' !in v)
    ensures Scan(v + t, inQuotes, cur, acc) == Scan(t, inQuotes, cur + v, acc)
    decreases |v|
  {
    if v != [] {
      assert (v + t)[0] == v[0] && v[0] in v;
      assert (v + t)[1..] == v[1..] + t;
      assert forall c :: c in v[1..] ==> c in v;
      ScanPlain(v[1..], t, inQuotes, cur + [v[0]], acc);
      assert cur + [v[0]] + v[1..] == cur + v;
    } else {
      assert v + t == t && cur + v == cur;
    }
  }

  /** A line without quotes or commas is a single field equal to the line. */
  lemma PlainLineIsOneField(line: string)
    requires '"' !in line && ',' !in line
    ensures ParseCsvLineSpec(line) == [line]
  {
    ScanPlain(line, "", false, "", []);
    assert line + "" == line && "" + line == line;
  }

  // ---------------------------------------------------------------------------
  // Columns
  // ---------------------------------------------------------------------------

  /** The value at `index`, trimmed, or "" past the end of the row. */
  function GetSafe(values: seq<string>, index: nat): string
  {
    if index < |values| then JavaTrim(values[index]) else ""
  }

  /** The field names of the columns, in file order. */
  const ColumnNames: seq<string> := ["word", "phonetic", "definition", "translation_pos",
                                     "collins", "oxford", "tag", "bnc", "frq", "exchange",
                                     "detail", "audio", "metric"]

  predicate Distinct(names: seq<string>)
  {
    forall i, j :: 0 <= i < j < |names| ==> names[i] != names[j]
  }

  lemma ColumnNamesDistinct()
    ensures Distinct(ColumnNames)
  {
  }

  /** The columns from `from` on, each name bound to the cell at its position. */
  function Columns(names: seq<string>, cells: seq<string>, from: nat): (item: map<string, string>)
    requires from <= |names| == |cells| && Distinct(names)
    ensures item.Keys == set k | from <= k < |names| :: names[k]
    ensures forall k :: from <= k < |names| ==> item[names[k]] == cells[k]
    decreases |names| - from
  {
    if from == |names| then map[]
    else Columns(names, cells, from + 1)[names[from] := cells[from]]
  }

  /** One row as named fields: always the same 13 names, each the trimmed value of its column,
      "" for a column the line does not have. */
  function MapColumns(values: seq<string>): (item: map<string, string>)
    ensures item.Keys == set k | 0 <= k < |ColumnNames| :: ColumnNames[k]
    ensures forall k :: 0 <= k < |ColumnNames| ==> item[ColumnNames[k]] == GetSafe(values, k)
  {
    ColumnNamesDistinct();
    Columns(ColumnNames, Cells(values, |ColumnNames|), 0)
  }

  /** The first `n` cells of a row, padded with "" and trimmed. */
  function Cells(values: seq<string>, n: nat): (cells: seq<string>)
    ensures |cells| == n
    ensures forall k :: 0 <= k < n ==> cells[k] == GetSafe(values, k)
  {
    seq(n, k requires 0 <= k < n => GetSafe(values, k))
  }

  /** The column names are distinct, so a row has exactly 13 fields. */
  lemma ThirteenColumns(values: seq<string>)
    ensures |MapColumns(values).Keys| == 13
  {
    ColumnNamesDistinct();
    DistinctCard(ColumnNames, 0);
  }

  lemma {:induction false} DistinctCard(names: seq<string>, from: nat)
    requires from <= |names| && Distinct(names)
    ensures |set k | from <= k < |names| :: names[k]| == |names| - from
    decreases |names| - from
  {
    if from < |names| {
      DistinctCard(names, from + 1);
      var s := set k | from + 1 <= k < |names| :: names[k];
      assert (set k | from <= k < |names| :: names[k]) == s + {names[from]};
      assert names[from] !in s;
    }
  }

  /** Every mapped value is already trimmed. */
  lemma MappedValuesTrimmed(values: seq<string>, k: nat)
    requires k < |ColumnNames|
    ensures JavaTrim(MapColumns(values)[ColumnNames[k]]) == MapColumns(values)[ColumnNames[k]]
  {
    var v := MapColumns(values)[ColumnNames[k]];
    TrimUntouched(v, IsJavaTrimmed);
  }

  // ---------------------------------------------------------------------------
  // Integers
  // ---------------------------------------------------------------------------

  /** No value for a missing or blank text; otherwise the trimmed text parsed as a 32-bit
      integer, or no value when it is not one. */
  function ParseInteger(val: Option<string>): (r: Option<int>)
    ensures val.None? ==> r.None?
    ensures val.Some? && JavaBlank(val.value) ==> r.None?
    ensures r.Some? ==> IntMin <= r.value <= IntMax
    ensures val.Some? && !JavaBlank(val.value) ==> r == ParseJavaInt(JavaTrim(val.value))
  {
    if val.None? || JavaBlank(val.value) then None
    else ParseJavaInt(JavaTrim(val.value))
  }

  /** A printed 32-bit integer, with spaces around it or not, parses back to itself. */
  lemma ParseIntegerPrinted(i: int, pad: nat)
    requires IntMin <= i <= IntMax
    ensures ParseInteger(Some(Spaces(pad) + IntToString(i) + Spaces(pad))) == Some(i)
  {
    var s := IntToString(i);
    var padded := Spaces(pad) + s + Spaces(pad);
    UnsignedIntToString(i);
    assert !IsJavaTrimmed(s[0]) && !IsJavaTrimmed(s[|s| - 1]);
    TrimPadded(s, pad);
    JavaBlankIffTrimEmpty(padded);
    ParseIntToString(i);
  }

  function Spaces(n: nat): (r: string)
    ensures |r| == n && forall k :: 0 <= k < n ==> r[k] == ' '
  {
    if n == 0 then "" else [' '] + Spaces(n - 1)
  }

  lemma TrimPadded(s: string, pad: nat)
    requires s != [] && !IsJavaTrimmed(s[0]) && !IsJavaTrimmed(s[|s| - 1])
    ensures JavaTrim(Spaces(pad) + s + Spaces(pad)) == s
  {
    var p := Spaces(pad) + s + Spaces(pad);
    var r := JavaTrim(p);
    var lead := LeadingCount(p, IsJavaTrimmed);
    assert !IsJavaTrimmed(p[pad]) && !IsJavaTrimmed(p[pad + |s| - 1]);
    assert lead <= pad && pad + |s| <= lead + |r|;
    assert r != [];
    assert !IsJavaTrimmed(p[lead]) && !IsJavaTrimmed(p[lead + |r| - 1]);
    assert lead == pad && |r| == |s|;
    assert r == p[pad..pad + |s|] == s;
  }

  // ---------------------------------------------------------------------------
  // The file
  // ---------------------------------------------------------------------------

  /** The lines that are not blank. */
  function NonBlankLines(lines: seq<string>): (r: seq<string>)
    ensures |r| <= |lines|
    ensures forall k :: 0 <= k < |r| ==> !JavaBlank(r[k])
  {
    if lines == [] then []
    else
      var init := NonBlankLines(lines[..|lines| - 1]);
      var last := lines[|lines| - 1];
      if JavaBlank(last) then init else init + [last]
  }

  /** The rows of the file: the non-blank lines after the first one, parsed and mapped. */
  function CsvItems(lines: seq<string>): (items: seq<map<string, string>>)
    ensures |items| == if NonBlankLines(lines) == [] then 0 else |NonBlankLines(lines)| - 1
  {
    if lines == [] then []
    else
      var init := lines[..|lines| - 1];
      var last := lines[|lines| - 1];
      if JavaBlank(last) || NonBlankLines(init) == [] then CsvItems(init)
      else CsvItems(init) + [MapColumns(ParseCsvLineSpec(last))]
  }

  /** Taking one more line: a blank one changes nothing, the first non-blank one only counts,
      and every later one adds its row. */
  lemma CsvStep(lines: seq<string>, i: int)
    requires 0 <= i < |lines|
    ensures JavaBlank(lines[i]) ==> NonBlankLines(lines[..i + 1]) == NonBlankLines(lines[..i])
    ensures !JavaBlank(lines[i]) ==> NonBlankLines(lines[..i + 1]) == NonBlankLines(lines[..i]) + [lines[i]]
    ensures JavaBlank(lines[i]) || NonBlankLines(lines[..i]) == [] ==> CsvItems(lines[..i + 1]) == CsvItems(lines[..i])
    ensures !JavaBlank(lines[i]) && NonBlankLines(lines[..i]) != [] ==>
      CsvItems(lines[..i + 1]) == CsvItems(lines[..i]) + [MapColumns(ParseCsvLineSpec(lines[i]))]
  {
    assert lines[..i + 1][..i] == lines[..i];
  }

  /** One line of the file: a blank one is skipped, the first non-blank one (the header) is
      only counted, and every later one is parsed into a row. */
  method ReadLine(lines: seq<string>, i: int, lineNumber: nat, items: seq<map<string, string>>)
    returns (lineNumber': nat, items': seq<map<string, string>>)
    requires 0 <= i < |lines|
    requires lineNumber == |NonBlankLines(lines[..i])| && items == CsvItems(lines[..i])
    ensures lineNumber' == |NonBlankLines(lines[..i + 1])| && items' == CsvItems(lines[..i + 1])
  {
    CsvStep(lines, i);
    lineNumber', items' := lineNumber, items;
    var line := lines[i];
    if !JavaBlank(line) {
      lineNumber' := lineNumber' + 1;
      if lineNumber' != 1 {
        var values := ParseCsvLine(line);
        items' := items' + [MapColumns(values)];
      }
    }
  }

  /** Reads the lines in order, skipping blank lines and the first non-blank one. */
  method ParseCsvFile(lines: seq<string>) returns (items: seq<map<string, string>>)
    ensures items == CsvItems(lines)
  {
    items := [];
    var lineNumber := 0;
    var i := 0;
    while i < |lines|
      invariant 0 <= i <= |lines|
      invariant lineNumber == |NonBlankLines(lines[..i])|
      invariant items == CsvItems(lines[..i])
    {
      lineNumber, items := ReadLine(lines, i, lineNumber, items);
      i := i + 1;
    }
    assert lines[..|lines|] == lines;
  }

  // ---------------------------------------------------------------------------
  // Language
  // ---------------------------------------------------------------------------

  /** Java's `\s`: space, tab, newline, vertical tab, form feed, carriage return. */
  predicate IsRegexSpace(c: char)
  {
    c == ' ' || c == '\t' || c == '\n' || c == '\U{000B}' || c == '\U{000C}' || c == '\r'
  }

  /** A character of the class `[a-zA-Z\s\-\']`. */
  predicate IsLatinWordChar(c: char)
  {
    ('a' <= c <= 'z') || ('A' <= c <= 'Z') || IsRegexSpace(c) || c == '-' || c == '\''
  }

  /** The stored form of a word: trimmed and lower-cased. */
  function NormalizeWord(word: string): (r: string)
  {
    AsciiLower(JavaTrim(word))
  }

  /** "en" when the whole normalised word matches `^[a-zA-Z\s\-\']+$`, otherwise "zh". */
  function DetectLanguage(normalized: string): (lang: string)
    ensures lang == "en" <==>
      normalized != [] && forall k :: 0 <= k < |normalized| ==> IsLatinWordChar(normalized[k])
    ensures lang == "en" || lang == "zh"
  {
    if normalized != [] && forall k :: 0 <= k < |normalized| ==> IsLatinWordChar(normalized[k])
    then "en" else "zh"
  }

  /** Lower-casing keeps a word's language: the check reads the letters in either case. */
  lemma LanguageIgnoresCase(word: string)
    ensures DetectLanguage(AsciiLower(word)) == DetectLanguage(word)
  {
    var lower := AsciiLower(word);
    if DetectLanguage(word) == "en" {
      forall k | 0 <= k < |lower|
        ensures IsLatinWordChar(lower[k])
      {
        assert IsLatinWordChar(word[k]);
      }
    } else if DetectLanguage(lower) == "en" {
      forall k | 0 <= k < |word|
        ensures IsLatinWordChar(word[k])
      {
        assert IsLatinWordChar(lower[k]);
      }
      assert false;
    }
  }

  // ---------------------------------------------------------------------------
  // The import loop
  // ---------------------------------------------------------------------------

  const MaxErrors: nat := 100
  const BatchSize: nat := 1000

  datatype ImportError = ImportError(line: int, word: string, message: string)

  /** The row inserted for a word: its normalised form, its language and the other fields. */
  datatype VocabRow = VocabRow(word: string, language: string, item: map<string, string>)

  predicate BlankWord(item: map<string, string>)
  {
    "word" !in item || JavaBlank(item["word"])
  }

  function RowOf(item: map<string, string>): (row: VocabRow)
    requires !BlankWord(item)
  {
    var w := NormalizeWord(item["word"]);
    VocabRow(w, DetectLanguage(w), item)
  }

  /** The rows of the items with a word, in order. */
  function Rows(items: seq<map<string, string>>): (rows: seq<VocabRow>)
    ensures |rows| <= |items|
  {
    if items == [] then []
    else
      var init := Rows(items[..|items| - 1]);
      var last := items[|items| - 1];
      if BlankWord(last) then init else init + [RowOf(last)]
  }

  /** The file line of every item without a word (the header is line 1, items start at 2). */
  function BlankLines(items: seq<map<string, string>>): (lines: seq<int>)
    ensures |lines| <= |items|
    ensures forall k :: 0 <= k < |lines| ==> 2 <= lines[k] < |items| + 2
  {
    if items == [] then []
    else
      var init := BlankLines(items[..|items| - 1]);
      if BlankWord(items[|items| - 1]) then init + [|items| + 1] else init
  }

  /** Items with a word and items without one make up the whole list. */
  lemma {:induction false} RowsAndBlanks(items: seq<map<string, string>>)
    ensures |Rows(items)| + |BlankLines(items)| == |items|
  {
    if items != [] {
      RowsAndBlanks(items[..|items| - 1]);
    }
  }

  function ErrorsFor(lines: seq<int>): (errors: seq<ImportError>)
    ensures |errors| == |lines|
  {
    seq(|lines|, k requires 0 <= k < |lines| => ImportError(lines[k], "", "单词不能为空"))
  }

  /** Taking one more item: a blank one adds its line, any other one adds its row. */
  lemma ImportStep(items: seq<map<string, string>>, i: int)
    requires 0 <= i < |items|
    ensures BlankWord(items[i]) ==> Rows(items[..i + 1]) == Rows(items[..i])
    ensures BlankWord(items[i]) ==> BlankLines(items[..i + 1]) == BlankLines(items[..i]) + [i + 2]
    ensures !BlankWord(items[i]) ==> Rows(items[..i + 1]) == Rows(items[..i]) + [RowOf(items[i])]
    ensures !BlankWord(items[i]) ==> BlankLines(items[..i + 1]) == BlankLines(items[..i])
  {
    assert items[..i + 1][..i] == items[..i];
  }

  /** The errors reported for the blank lines so far: the first 100 of them. */
  function Reported(lines: seq<int>): (errors: seq<ImportError>)
    ensures |errors| == Min(MaxErrors, |lines|)
  {
    ErrorsFor(lines[..Min(MaxErrors, |lines|)])
  }

  /** The reported errors grow with a new blank line only while fewer than 100 exist. */
  lemma ErrorsStep(lines: seq<int>, line: int)
    ensures |lines| < MaxErrors ==>
      Reported(lines + [line]) == Reported(lines) + [ImportError(line, "", "单词不能为空")]
    ensures |lines| >= MaxErrors ==> Reported(lines + [line]) == Reported(lines)
  {
    if |lines| < MaxErrors {
      assert (lines + [line])[..|lines| + 1] == lines + [line];
      assert lines[..|lines|] == lines;
    } else {
      assert (lines + [line])[..MaxErrors] == lines[..MaxErrors];
    }
  }

  /** Queues one row; a full batch of 1000 is inserted, each of its rows counting as imported. */
  method QueueRow(inserted: seq<VocabRow>, batch: seq<VocabRow>, imported: nat, row: VocabRow)
    returns (inserted': seq<VocabRow>, batch': seq<VocabRow>, imported': nat)
    requires imported == |inserted| && |batch| < BatchSize
    ensures inserted' + batch' == inserted + batch + [row]
    ensures imported' == |inserted'| && |batch'| < BatchSize
  {
    inserted', batch', imported' := inserted, batch + [row], imported;
    if |batch'| >= BatchSize {
      inserted' := inserted' + batch';
      imported' := imported' + |batch'|;
      batch' := [];
      assert inserted' + batch' == inserted';
    }
  }

  /** The counting loop of the import. Every item is processed; an item without a word
      fails and is reported while fewer than 100 errors exist; the others are inserted in
      batches of 1000, each inserted row counting as imported. */
  method ImportItems(items: seq<map<string, string>>)
    returns (totalProcessed: nat, imported: nat, failed: nat, errors: seq<ImportError>,
             inserted: seq<VocabRow>)
    ensures totalProcessed == |items|
    ensures inserted == Rows(items) && imported == |inserted|
    ensures failed == |BlankLines(items)| && imported + failed == totalProcessed
    ensures errors == ErrorsFor(BlankLines(items)[..Min(MaxErrors, failed)])
    ensures |errors| <= MaxErrors
  {
    totalProcessed, imported, failed, errors, inserted := 0, 0, 0, [], [];
    var batch: seq<VocabRow> := [];
    ghost var rows: seq<VocabRow> := [];
    ghost var blanks: seq<int> := [];
    var i := 0;
    while i < |items|
      invariant 0 <= i <= |items|
      invariant totalProcessed == i
      invariant rows == Rows(items[..i]) && blanks == BlankLines(items[..i])
      invariant inserted + batch == rows && imported == |inserted|
      invariant |batch| < BatchSize
      invariant failed == |blanks| && errors == Reported(blanks)
    {
      totalProcessed := totalProcessed + 1;
      var item := items[i];
      ImportStep(items, i);
      if BlankWord(item) {
        ErrorsStep(blanks, i + 2);
        if |errors| < MaxErrors {
          errors := errors + [ImportError(i + 2, "", "单词不能为空")];
        }
        failed := failed + 1;
        blanks := blanks + [i + 2];
        assert rows == Rows(items[..i + 1]) && blanks == BlankLines(items[..i + 1]);
      } else {
        // the normalised word and its detected language
        var row := RowOf(item);
        inserted, batch, imported := QueueRow(inserted, batch, imported, row);
        rows := rows + [row];
        assert rows == Rows(items[..i + 1]) && blanks == BlankLines(items[..i + 1]);
      }
      i := i + 1;
    }
    inserted := inserted + batch;
    imported := imported + |batch|;
    assert items[..|items|] == items;
    RowsAndBlanks(items);
  }
}
