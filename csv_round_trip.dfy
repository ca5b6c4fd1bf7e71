/** The review export's CSV cells read back by the vocabulary import's line parser: a row of
    escaped cells joined by commas parses to the original values. */
module CsvRoundTrip {
  import opened Common
  import opened VocabularyImport
  import opened ExportReviews

  /** Inside quotes, a body with doubled quotes followed by the closing quote reads back as the
      original text, as long as no quote follows the closing one. */
  lemma {:induction false} ScanQuoted(v: string, t: string, cur: string, acc: seq<string>)
    requires t == [] || t[0] != '"'
    ensures Scan(DoubleQuotes(v) + "\"" + t, true, cur, acc) == Scan(t, false, cur + v, acc)
    decreases |v|
  {
    if v == [] {
      assert DoubleQuotes(v) + "\"" + t == ['"'] + t;
      assert (['"'] + t)[1..] == t;
      assert cur + v == cur;
    } else {
      var rest := DoubleQuotes(v[1..]) + "\"" + t;
      ScanQuoted(v[1..], t, cur + [v[0]], acc);
      assert cur + [v[0]] + v[1..] == cur + v;
      if v[0] == '"' {
        assert DoubleQuotes(v) + "\"" + t == "\"\"" + rest;
        assert ("\"\"" + rest)[2..] == rest;
      } else {
        assert DoubleQuotes(v) + "\"" + t == [v[0]] + rest;
        assert ([v[0]] + rest)[1..] == rest;
      }
    }
  }

  /** One escaped cell, followed by the end of the line or a comma, is read as the value. */
  lemma CellRoundTrip(v: string, rest: string, acc: seq<string>)
    requires rest == [] || rest[0] == ','
    ensures Scan(EscapeCsv(Some(v)) + rest, false, "", acc) == Scan(rest, false, v, acc)
  {
    if NeedsQuoting(v) {
      QuotedCell(v, rest, acc);
    } else {
      ScanPlain(v, rest, false, "", acc);
      assert "" + v == v;
    }
  }

  lemma QuotedCell(v: string, rest: string, acc: seq<string>)
    requires rest == [] || rest[0] == ','
    ensures Scan("\"" + DoubleQuotes(v) + "\"" + rest, false, "", acc) == Scan(rest, false, v, acc)
  {
    var body := DoubleQuotes(v) + "\"" + rest;
    var line := "\"" + DoubleQuotes(v) + "\"" + rest;
    assert line == ['"'] + body;
    assert line[0] == '"' && line[1..] == body;
    assert Scan(line, false, "", acc) == Scan(body, true, "", acc);
    ScanQuoted(v, rest, "", acc);
    assert "" + v == v;
  }

  function EscapeAll(values: seq<string>): (cells: seq<string>)
    ensures |cells| == |values|
    ensures forall k :: 0 <= k < |values| ==> cells[k] == EscapeCsv(Some(values[k]))
  {
    seq(|values|, k requires 0 <= k < |values| => EscapeCsv(Some(values[k])))
  }

  lemma {:induction false} RowRoundTrip(values: seq<string>, acc: seq<string>)
    requires |values| >= 1
    ensures Scan(Join(EscapeAll(values), ","), false, "", acc) == acc + values
    decreases |values|
  {
    var cells := EscapeAll(values);
    if |values| == 1 {
      assert Join(cells, ",") == cells[0] + "";
      CellRoundTrip(values[0], "", acc);
      assert acc + [values[0]] == acc + values;
    } else {
      var tail := Join(cells[1..], ",");
      assert Join(cells, ",") == cells[0] + ("," + tail);
      CellRoundTrip(values[0], "," + tail, acc);
      CommaEndsCell(tail, values[0], acc);
      assert cells[1..] == EscapeAll(values[1..]);
      RowRoundTrip(values[1..], acc + [values[0]]);
      assert acc + [values[0]] + values[1..] == acc + values;
    }
  }

  lemma CommaEndsCell(tail: string, cur: string, acc: seq<string>)
    ensures Scan("," + tail, false, cur, acc) == Scan(tail, false, "", acc + [cur])
  {
    assert ("," + tail)[0] == ',' && ("," + tail)[1..] == tail;
  }

  /** Any non-empty list of values, escaped and joined by commas, parses back to itself. */
  lemma ParseEscapedRow(values: seq<string>)
    requires |values| >= 1
    ensures ParseCsvLineSpec(Join(EscapeAll(values), ",")) == values
  {
    RowRoundTrip(values, []);
  }
}
