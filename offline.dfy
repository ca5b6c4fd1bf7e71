/** The offline service's pure and record-level helpers: the simplified CSV export and import
    of documents and vocabulary, the check on imported data, the retry counter of a queued
    sync operation, the file-format guess and the bounds on the sync interval. */
module Offline {
  import opened Common
  import opened JsValues

  // ---------------------------------------------------------------------------
  // File format
  // ---------------------------------------------------------------------------

  /** _detectFileFormat: "csv" for a name ending in ".csv" (ignoring case), "json" otherwise. */
  function DetectFileFormat(fileName: string): (r: string)
    ensures r == "csv" || r == "json"
    ensures r == "csv" <==> EndsWith(AsciiLower(fileName), ".csv")
  {
    var name := AsciiLower(fileName);
    if EndsWith(name, ".json") then
      EndsWithLast(name, ".json");
      EndsWithLast(name, ".csv");
      "json"
    else if EndsWith(name, ".csv") then "csv"
    else "json"
  }

  /** A string ending in a suffix ends in that suffix's last character. */
  lemma EndsWithLast(s: string, suffix: string)
    requires suffix != []
    ensures EndsWith(s, suffix) ==> s[|s| - 1] == suffix[|suffix| - 1]
  {
    if EndsWith(s, suffix) {
      assert s[|s| - |suffix|..][|suffix| - 1] == s[|s| - 1];
    }
  }

  // ---------------------------------------------------------------------------
  // Validation of imported data
  // ---------------------------------------------------------------------------

  /** Why imported data is refused; Message gives the text the source throws. */
  datatype ImportError = InvalidFormat | MissingData | NotAnArray(typeName: string)

  function Message(e: ImportError): string
  {
    match e
    case InvalidFormat => "导入数据格式无效"
    case MissingData => "导入数据缺少data字段"
    case NotAnArray(t) => t + "数据必须是数组"
  }

  /** The collections whose value, when present, must be an array. */
  const ImportTypes: seq<string> := ["documents", "vocabulary", "reviews", "notes", "highlights"]

  /** `!(v && !Array.isArray(v))`: absent, falsy or an array. */
  predicate ListOk(v: Value) { !Truthy(v) || v.Arr? }

  /** The position of the first listed collection that is present but not an array, or the
      length of the list when there is none. */
  function FirstNonArray(data: Value, types: seq<string>): (i: nat)
    ensures i <= |types|
    ensures forall j :: 0 <= j < i ==> ListOk(Get(data, types[j]))
    ensures i < |types| ==> !ListOk(Get(data, types[i]))
    decreases |types|
  {
    if types == [] then 0
    else if !ListOk(Get(data, types[0])) then 0
    else
      var i := FirstNonArray(data, types[1..]);
      assert forall j :: 1 <= j < |types| ==> types[1..][j - 1] == types[j];
      1 + i
  }

  /** _validateImportData: None when the data is accepted, otherwise why it is refused. The
      value must be a truthy object with a truthy object under "data", and every listed
      collection under it that is present must be an array; the first one that is not is
      named. */
  function ValidateImportData(data: Value): (r: Option<ImportError>)
    ensures !Truthy(data) || !IsObjectType(data) ==> r == Some(InvalidFormat)
    ensures (Truthy(data) && IsObjectType(data)
             && !(Truthy(Get(data, "data")) && IsObjectType(Get(data, "data"))))
            ==> r == Some(MissingData)
    ensures r.None? <==>
      (data.Obj? && Truthy(Get(data, "data")) && IsObjectType(Get(data, "data"))
       && forall i :: 0 <= i < |ImportTypes| ==> ListOk(Get(Get(data, "data"), ImportTypes[i])))
    ensures r.Some? && r.value.NotAnArray? ==>
      exists i :: 0 <= i < |ImportTypes| && ImportTypes[i] == r.value.typeName
        && !ListOk(Get(Get(data, "data"), ImportTypes[i]))
        && forall j :: 0 <= j < i ==> ListOk(Get(Get(data, "data"), ImportTypes[j]))
  {
    if !Truthy(data) || !IsObjectType(data) then Some(InvalidFormat)
    else
      var inner := Get(data, "data");
      if !Truthy(inner) || !IsObjectType(inner) then Some(MissingData)
      else
        var i := FirstNonArray(inner, ImportTypes);
        if i < |ImportTypes| then Some(NotAnArray(ImportTypes[i])) else None
  }

  // ---------------------------------------------------------------------------
  // CSV export
  // ---------------------------------------------------------------------------

  const HeaderNames: seq<string> := ["type", "id", "title", "createdAt", "updatedAt"]

  /** The header row: "type,id,title,createdAt,updatedAt". */
  const HeaderLine: string := Join(HeaderNames, ",")

  const DocumentKind: string := "document"
  const VocabularyKind: string := "vocabulary"

  /** A document or a vocabulary item as the export writes it; `text` is the title of a
      document and the word of a vocabulary item. The other fields are already rendered as
      the template string renders them. */
  datatype ExportItem = ExportItem(id: string, text: string, createdAt: string, updatedAt: string)

  /** `data.data.documents` and `data.data.vocabulary`, each possibly absent. */
  datatype ExportData = ExportData(documents: Option<seq<ExportItem>>, vocabulary: Option<seq<ExportItem>>)

  function Quote(s: string): string { "\"" + s + "\"" }

  /** The cells of one exported row: kind, id, the quoted text and the two timestamps. */
  function RowCells(kind: string, item: ExportItem): seq<string>
  {
    [kind, item.id, Quote(item.text), item.createdAt, item.updatedAt]
  }

  function CsvRow(kind: string, item: ExportItem): string
  {
    Join(RowCells(kind, item), ",")
  }

  function Rows(kind: string, items: seq<ExportItem>): (r: seq<string>)
    ensures |r| == |items|
    ensures forall i :: 0 <= i < |items| ==> r[i] == CsvRow(kind, items[i])
  {
    seq(|items|, i requires 0 <= i < |items| => CsvRow(kind, items[i]))
  }

  lemma RowsStep(kind: string, items: seq<ExportItem>, i: nat)
    requires i < |items|
    ensures Rows(kind, items[..i + 1]) == Rows(kind, items[..i]) + [CsvRow(kind, items[i])]
  {
  }

  function ItemsOrNone(items: Option<seq<ExportItem>>): seq<ExportItem>
  {
    if items.Some? then items.value else []
  }

  /** The lines of the export: the header, one row per document, then one row per
      vocabulary item. */
  function CsvLines(data: ExportData): (r: seq<string>)
    ensures |r| == 1 + |ItemsOrNone(data.documents)| + |ItemsOrNone(data.vocabulary)|
    ensures r[0] == HeaderLine
    ensures r[1..] == Rows(DocumentKind, ItemsOrNone(data.documents))
      + Rows(VocabularyKind, ItemsOrNone(data.vocabulary))
  {
    [HeaderLine] + Rows(DocumentKind, ItemsOrNone(data.documents))
      + Rows(VocabularyKind, ItemsOrNone(data.vocabulary))
  }

  /** _convertToCSV: the lines joined by newlines. */
  method ConvertToCsv(data: ExportData) returns (csv: string)
    ensures csv == Join(CsvLines(data), "\n")
  {
    var rows := [HeaderLine];
    if data.documents.Some? {
      var docs := data.documents.value;
      for i := 0 to |docs|
        invariant rows == [HeaderLine] + Rows(DocumentKind, docs[..i])
      {
        RowsStep(DocumentKind, docs, i);
        rows := rows + [CsvRow(DocumentKind, docs[i])];
      }
      assert docs[..|docs|] == docs;
    }
    var before := rows;
    assert before == [HeaderLine] + Rows(DocumentKind, ItemsOrNone(data.documents));
    if data.vocabulary.Some? {
      var words := data.vocabulary.value;
      for i := 0 to |words|
        invariant rows == before + Rows(VocabularyKind, words[..i])
      {
        RowsStep(VocabularyKind, words, i);
        rows := rows + [CsvRow(VocabularyKind, words[i])];
      }
      assert words[..|words|] == words;
    }
    assert rows == before + Rows(VocabularyKind, ItemsOrNone(data.vocabulary));
    csv := Join(rows, "\n");
  }

  // ---------------------------------------------------------------------------
  // CSV import
  // ---------------------------------------------------------------------------

  /** A document or vocabulary item read back from CSV. A field is None when the header line
      has no column of that name. */
  datatype ImportedItem = ImportedItem(id: Option<string>, text: Option<string>,
                                       createdAt: Option<string>, updatedAt: Option<string>)

  datatype ImportedData = ImportedData(documents: seq<ImportedItem>, vocabulary: seq<ImportedItem>)

  /** `v.replace(/^"|"$/g, '')`: one leading and one trailing double quote removed. */
  function StripQuotes(v: string): (r: string)
    ensures |r| <= |v|
    ensures v != [] && v[0] != '"' && v[|v| - 1] != '"' ==> r == v
    ensures r == v || r == v[1..] || r == v[..|v| - 1] || (|v| >= 2 && r == v[1..|v| - 1])
  {
    var rest := if v != [] && v[0] == '"' then v[1..] else v;
    if rest != [] && rest[|rest| - 1] == '"' then rest[..|rest| - 1] else rest
  }

  /** `values[index] ? values[index].replace(...) : ''`: a missing or empty cell reads as "". */
  function Cell(values: seq<string>, index: nat): string
  {
    if index < |values| && values[index] != "" then StripQuotes(values[index]) else ""
  }

  /** `row[name]` after every header has been assigned in order: the cell under the last
      column of that name, or None when there is none. */
  function Field(headers: seq<string>, values: seq<string>, name: string): (r: Option<string>)
    ensures r.None? <==> name !in headers
    decreases |headers|
  {
    if headers == [] then None
    else if headers[|headers| - 1] == name then Some(Cell(values, |headers| - 1))
    else Field(headers[..|headers| - 1], values, name)
  }

  function RowItem(headers: seq<string>, values: seq<string>): ImportedItem
  {
    ImportedItem(Field(headers, values, "id"), Field(headers, values, "title"),
                 Field(headers, values, "createdAt"), Field(headers, values, "updatedAt"))
  }

  /** The data lines read in order: blank lines are skipped, a row whose type is "document"
      or "vocabulary" is added to its list, and any other row is ignored. */
  function ParsedLines(headers: seq<string>, lines: seq<string>): (r: ImportedData)
    ensures |r.documents| + |r.vocabulary| <= |lines|
    decreases |lines|
  {
    if lines == [] then ImportedData([], [])
    else
      var before := ParsedLines(headers, lines[..|lines| - 1]);
      var line := lines[|lines| - 1];
      if JsBlank(line) then before
      else
        var values := SplitOn(line, ',');
        var kind := Field(headers, values, "type");
        if kind == Some(DocumentKind) then
          before.(documents := before.documents + [RowItem(headers, values)])
        else if kind == Some(VocabularyKind) then
          before.(vocabulary := before.vocabulary + [RowItem(headers, values)])
        else before
  }

  /** The whole text: the first line names the columns, the rest are data lines. */
  function ParsedCsv(csv: string): ImportedData
  {
    var lines := SplitOn(csv, '\n');
    ParsedLines(SplitOn(lines[0], ','), lines[1..])
  }

  /** _parseCSV (the export metadata with its timestamp is left out). */
  method ParseCsv(csv: string) returns (data: ImportedData)
    ensures data == ParsedCsv(csv)
  {
    var lines := SplitOn(csv, '\n');
    var headers := SplitOn(lines[0], ',');
    var documents: seq<ImportedItem> := [];
    var vocabulary: seq<ImportedItem> := [];
    for i := 1 to |lines|
      invariant ImportedData(documents, vocabulary) == ParsedLines(headers, lines[1..i])
    {
      assert lines[1..i + 1][..i - 1] == lines[1..i];
      if JsBlank(lines[i]) {
        continue;
      }
      var values := SplitOn(lines[i], ',');
      var row := RowItem(headers, values);
      var kind := Field(headers, values, "type");
      if kind == Some(DocumentKind) {
        documents := documents + [row];
      } else if kind == Some(VocabularyKind) {
        vocabulary := vocabulary + [row];
      }
    }
    assert lines[1..|lines|] == lines[1..];
    data := ImportedData(documents, vocabulary);
  }

  // ---------------------------------------------------------------------------
  // Round trip
  // ---------------------------------------------------------------------------

  /** A field the simplified format carries unchanged: no comma, no line break, and (for the
      unquoted columns) no double quote at either end. */
  predicate PlainText(s: string) { ',' !in s && '\n' !in s }

  predicate PlainCell(s: string) { PlainText(s) && (s == [] || (s[0] != '"' && s[|s| - 1] != '"')) }

  predicate PlainItem(item: ExportItem)
  {
    PlainCell(item.id) && PlainText(item.text) && PlainCell(item.createdAt) && PlainCell(item.updatedAt)
  }

  predicate AllPlain(items: seq<ExportItem>) { forall i :: 0 <= i < |items| ==> PlainItem(items[i]) }

  function Imported(item: ExportItem): ImportedItem
  {
    ImportedItem(Some(item.id), Some(item.text), Some(item.createdAt), Some(item.updatedAt))
  }

  function AllImported(items: seq<ExportItem>): (r: seq<ImportedItem>)
    ensures |r| == |items|
    ensures forall i :: 0 <= i < |items| ==> r[i] == Imported(items[i])
  {
    seq(|items|, i requires 0 <= i < |items| => Imported(items[i]))
  }

  lemma HeaderCells()
    ensures SplitOn(HeaderLine, ',') == HeaderNames
  {
    var names := HeaderNames;
    assert forall k :: 0 <= k < |names| ==> ',' !in names[k];
    SplitOnJoin(names, ',');
  }

  /** Under the exported header, each name reads its own column. */
  lemma HeaderFields(values: seq<string>)
    ensures Field(HeaderNames, values, "type") == Some(Cell(values, 0))
    ensures Field(HeaderNames, values, "id") == Some(Cell(values, 1))
    ensures Field(HeaderNames, values, "title") == Some(Cell(values, 2))
    ensures Field(HeaderNames, values, "createdAt") == Some(Cell(values, 3))
    ensures Field(HeaderNames, values, "updatedAt") == Some(Cell(values, 4))
  {
    var h := HeaderNames;
    var names := ["type", "id", "title", "createdAt", "updatedAt"];
    forall n | 0 <= n < 5
      ensures Field(h, values, names[n]) == Some(Cell(values, n))
    {
      FieldAt(h, values, n);
    }
  }

  /** A name that occurs once in the header reads the column at its position. */
  lemma {:induction false} FieldAt(headers: seq<string>, values: seq<string>, n: nat)
    requires n < |headers|
    requires forall j :: n < j < |headers| ==> headers[j] != headers[n]
    ensures Field(headers, values, headers[n]) == Some(Cell(values, n))
    decreases |headers|
  {
    if n < |headers| - 1 {
      var init := headers[..|headers| - 1];
      assert init[n] == headers[n];
      FieldAt(init, values, n);
    }
  }

  /** A quoted cell loses exactly its two quotes. */
  lemma StripQuoted(t: string)
    ensures StripQuotes(Quote(t)) == t
  {
    var q := Quote(t);
    assert q[1..] == t + "\"";
    assert (t + "\"")[..|t|] == t;
  }

  /** An exported row of plain fields reads back as its item, under its own kind. */
  lemma RowReadsBack(kind: string, item: ExportItem)
    requires kind == DocumentKind || kind == VocabularyKind
    requires PlainItem(item)
    ensures var values := SplitOn(CsvRow(kind, item), ',');
      !JsBlank(CsvRow(kind, item))
      && Field(HeaderNames, values, "type") == Some(kind)
      && RowItem(HeaderNames, values) == Imported(item)
  {
    var cells := RowCells(kind, item);
    RowSplits(kind, item);
    RowNotBlank(kind, item);
    CellsOfRow(kind, item);
    HeaderFields(cells);
  }

  lemma RowSplits(kind: string, item: ExportItem)
    requires kind == DocumentKind || kind == VocabularyKind
    requires PlainItem(item)
    ensures SplitOn(CsvRow(kind, item), ',') == RowCells(kind, item)
  {
    var cells := RowCells(kind, item);
    assert ',' !in Quote(item.text);
    assert forall k :: 0 <= k < |cells| ==> ',' !in cells[k];
    SplitOnJoin(cells, ',');
  }

  lemma RowNotBlank(kind: string, item: ExportItem)
    requires kind == DocumentKind || kind == VocabularyKind
    ensures !JsBlank(CsvRow(kind, item))
  {
    var cells := RowCells(kind, item);
    var row := CsvRow(kind, item);
    assert row == kind + "," + Join(cells[1..], ",");
    assert row[0] == kind[0];
  }

  lemma CellsOfRow(kind: string, item: ExportItem)
    requires kind == DocumentKind || kind == VocabularyKind
    requires PlainItem(item)
    ensures var cells := RowCells(kind, item);
      Cell(cells, 0) == kind && Cell(cells, 1) == item.id && Cell(cells, 2) == item.text
      && Cell(cells, 3) == item.createdAt && Cell(cells, 4) == item.updatedAt
  {
    StripQuoted(item.text);
  }

  /** Items added at the end of the list of their kind. */
  function WithItems(data: ImportedData, kind: string, items: seq<ImportedItem>): ImportedData
  {
    if kind == DocumentKind then data.(documents := data.documents + items)
    else data.(vocabulary := data.vocabulary + items)
  }

  /** Rows of one kind appended after some lines add their items, in order, to that kind's list. */
  lemma {:induction false} RowsReadBack(pre: seq<string>, kind: string, items: seq<ExportItem>)
    requires kind == DocumentKind || kind == VocabularyKind
    requires AllPlain(items)
    ensures ParsedLines(HeaderNames, pre + Rows(kind, items))
      == WithItems(ParsedLines(HeaderNames, pre), kind, AllImported(items))
    decreases |items|
  {
    var before := ParsedLines(HeaderNames, pre);
    if items == [] {
      assert pre + Rows(kind, items) == pre;
      assert before.documents + [] == before.documents;
      assert before.vocabulary + [] == before.vocabulary;
    } else {
      var n := |items| - 1;
      RowsReadBack(pre, kind, items[..n]);
      RowsReadBackStep(pre, kind, items);
    }
  }

  /** The step of RowsReadBack: one more row after rows already read back. */
  lemma RowsReadBackStep(pre: seq<string>, kind: string, items: seq<ExportItem>)
    requires kind == DocumentKind || kind == VocabularyKind
    requires items != [] && PlainItem(items[|items| - 1])
    requires ParsedLines(HeaderNames, pre + Rows(kind, items[..|items| - 1]))
      == WithItems(ParsedLines(HeaderNames, pre), kind, AllImported(items[..|items| - 1]))
    ensures ParsedLines(HeaderNames, pre + Rows(kind, items))
      == WithItems(ParsedLines(HeaderNames, pre), kind, AllImported(items))
  {
    var n := |items| - 1;
    var before := ParsedLines(HeaderNames, pre);
    var lines := pre + Rows(kind, items);
    RowsLast(pre, kind, items);
    RowReadsBack(kind, items[n]);
    ParsedLastRow(HeaderNames, lines, kind);
    AllImportedStep(items);
    WithItemsTwice(before, kind, AllImported(items[..n]), [Imported(items[n])]);
  }

  lemma RowsLast(pre: seq<string>, kind: string, items: seq<ExportItem>)
    requires items != []
    ensures var lines := pre + Rows(kind, items);
      lines[..|lines| - 1] == pre + Rows(kind, items[..|items| - 1])
      && lines[|lines| - 1] == CsvRow(kind, items[|items| - 1])
  {
    var lines := pre + Rows(kind, items);
    assert lines[..|lines| - 1] == pre + Rows(kind, items[..|items| - 1]);
  }

  /** A last line that is a row of a known kind is added to that kind's list. */
  lemma ParsedLastRow(headers: seq<string>, lines: seq<string>, kind: string)
    requires lines != []
    requires kind == DocumentKind || kind == VocabularyKind
    requires !JsBlank(lines[|lines| - 1])
    requires Field(headers, SplitOn(lines[|lines| - 1], ','), "type") == Some(kind)
    ensures ParsedLines(headers, lines)
      == WithItems(ParsedLines(headers, lines[..|lines| - 1]), kind,
                   [RowItem(headers, SplitOn(lines[|lines| - 1], ','))])
  {
  }

  lemma AllImportedStep(items: seq<ExportItem>)
    requires items != []
    ensures AllImported(items) == AllImported(items[..|items| - 1]) + [Imported(items[|items| - 1])]
  {
  }

  lemma WithItemsTwice(data: ImportedData, kind: string, xs: seq<ImportedItem>, ys: seq<ImportedItem>)
    ensures WithItems(WithItems(data, kind, xs), kind, ys) == WithItems(data, kind, xs + ys)
  {
    assert data.documents + xs + ys == data.documents + (xs + ys);
    assert data.vocabulary + xs + ys == data.vocabulary + (xs + ys);
  }

  /** Exporting plain documents and vocabulary and reading the text back gives every item, in
      order and in its own list, with all four fields. */
  lemma CsvRoundTrip(data: ExportData)
    requires AllPlain(ItemsOrNone(data.documents)) && AllPlain(ItemsOrNone(data.vocabulary))
    ensures ParsedCsv(Join(CsvLines(data), "\n"))
      == ImportedData(AllImported(ItemsOrNone(data.documents)), AllImported(ItemsOrNone(data.vocabulary)))
  {
    var lines := CsvLines(data);
    LinesHaveNoBreak(data);
    SplitOnJoin(lines, '\n');
    HeaderCells();
    BodyReadsBack(data);
  }

  /** The data lines of a plain export read back as its documents and vocabulary. */
  lemma BodyReadsBack(data: ExportData)
    requires AllPlain(ItemsOrNone(data.documents)) && AllPlain(ItemsOrNone(data.vocabulary))
    ensures ParsedLines(HeaderNames, CsvLines(data)[1..])
      == ImportedData(AllImported(ItemsOrNone(data.documents)), AllImported(ItemsOrNone(data.vocabulary)))
  {
    var docs := ItemsOrNone(data.documents);
    var words := ItemsOrNone(data.vocabulary);
    var docRows := Rows(DocumentKind, docs);
    RowsReadBack([], DocumentKind, docs);
    assert [] + docRows == docRows;
    RowsReadBack(docRows, VocabularyKind, words);
  }

  lemma LinesHaveNoBreak(data: ExportData)
    requires AllPlain(ItemsOrNone(data.documents)) && AllPlain(ItemsOrNone(data.vocabulary))
    ensures forall k :: 0 <= k < |CsvLines(data)| ==> '\n' !in CsvLines(data)[k]
  {
    var docRows := Rows(DocumentKind, ItemsOrNone(data.documents));
    var wordRows := Rows(VocabularyKind, ItemsOrNone(data.vocabulary));
    RowsHaveNoBreak(DocumentKind, ItemsOrNone(data.documents));
    RowsHaveNoBreak(VocabularyKind, ItemsOrNone(data.vocabulary));
    JoinFree(HeaderNames, ",", '\n');
    assert CsvLines(data) == [HeaderLine] + (docRows + wordRows);
  }

  lemma RowsHaveNoBreak(kind: string, items: seq<ExportItem>)
    requires kind == DocumentKind || kind == VocabularyKind
    requires AllPlain(items)
    ensures forall k :: 0 <= k < |Rows(kind, items)| ==> '\n' !in Rows(kind, items)[k]
  {
    forall k | 0 <= k < |items|
      ensures '\n' !in Rows(kind, items)[k]
    {
      RowHasNoBreak(kind, items[k]);
    }
  }

  lemma RowHasNoBreak(kind: string, item: ExportItem)
    requires kind == DocumentKind || kind == VocabularyKind
    requires PlainItem(item)
    ensures '\n' !in CsvRow(kind, item)
  {
    var cells := RowCells(kind, item);
    assert '\n' !in Quote(item.text);
    JoinFree(cells, ",", '\n');
  }

  lemma {:induction false} JoinFree(parts: seq<string>, sep: string, c: char)
    requires c !in sep
    requires forall k :: 0 <= k < |parts| ==> c !in parts[k]
    ensures c !in Join(parts, sep)
    decreases |parts|
  {
    if |parts| > 1 {
      JoinFree(parts[1..], sep, c);
    }
  }

  /** The simplified format does not quote commas: a title `a,b` is cut at the comma, its
      second half is read as the creation time, and the creation time as the update time. */
  lemma CommaInTitleIsCut(item: ExportItem, a: string, b: string)
    requires item.text == a + "," + b
    requires PlainText(a) && PlainText(b)
    requires a == [] || a[|a| - 1] != '"'
    requires b == [] || b[0] != '"'
    requires PlainCell(item.id) && PlainCell(item.createdAt) && PlainCell(item.updatedAt)
    ensures var values := SplitOn(CsvRow(DocumentKind, item), ',');
      RowItem(HeaderNames, values) == ImportedItem(Some(item.id), Some(a), Some(b), Some(item.createdAt))
  {
    var cells := [DocumentKind, item.id, "\"" + a, b + "\"", item.createdAt, item.updatedAt];
    CutRowCells(item, a, b);
    CutRowSplits(item, a, b);
    CutCells(item, a, b);
    HeaderFields(cells);
  }

  lemma CutRowSplits(item: ExportItem, a: string, b: string)
    requires PlainText(a) && PlainText(b)
    requires PlainCell(item.id) && PlainCell(item.createdAt) && PlainCell(item.updatedAt)
    ensures var cells := [DocumentKind, item.id, "\"" + a, b + "\"", item.createdAt, item.updatedAt];
      SplitOn(Join(cells, ","), ',') == cells
  {
    var cells := [DocumentKind, item.id, "\"" + a, b + "\"", item.createdAt, item.updatedAt];
    assert forall k :: 0 <= k < |cells| ==> ',' !in cells[k];
    SplitOnJoin(cells, ',');
  }

  lemma CutCells(item: ExportItem, a: string, b: string)
    requires a == [] || a[|a| - 1] != '"'
    requires b == [] || b[0] != '"'
    requires PlainCell(item.id) && PlainCell(item.createdAt)
    ensures var cells := [DocumentKind, item.id, "\"" + a, b + "\"", item.createdAt, item.updatedAt];
      Cell(cells, 1) == item.id && Cell(cells, 2) == a && Cell(cells, 3) == b
      && Cell(cells, 4) == item.createdAt
  {
    assert ("\"" + a)[1..] == a;
    assert (b + "\"")[..|b|] == b;
  }

  /** The exported row of such an item is the join of six cells. */
  lemma CutRowCells(item: ExportItem, a: string, b: string)
    requires item.text == a + "," + b
    ensures CsvRow(DocumentKind, item)
      == Join([DocumentKind, item.id, "\"" + a, b + "\"", item.createdAt, item.updatedAt], ",")
  {
    var cells := [DocumentKind, item.id, "\"" + a, b + "\"", item.createdAt, item.updatedAt];
    var row := RowCells(DocumentKind, item);
    var tail := item.createdAt + "," + item.updatedAt;
    assert row[3..][1..] == [item.updatedAt];
    assert Join(row[3..], ",") == tail;
    assert cells[4..][1..] == [item.updatedAt];
    assert Join(cells[4..], ",") == tail;
    assert cells[3..][1..] == cells[4..];
    assert Join(cells[3..], ",") == b + "\"" + "," + tail;
    assert cells[2..][1..] == cells[3..];
    assert Join(cells[2..], ",") == "\"" + a + "," + (b + "\"" + "," + tail);
    assert row[2..][1..] == row[3..];
    assert Join(row[2..], ",") == Quote(item.text) + "," + tail;
    assert Quote(item.text) + "," + tail == "\"" + a + "," + (b + "\"" + "," + tail);
    assert row[1..][1..] == row[2..];
    assert cells[1..][1..] == cells[2..];
    assert Join(row[1..], ",") == Join(cells[1..], ",");
  }

  // ---------------------------------------------------------------------------
  // Retry counter and sync interval
  // ---------------------------------------------------------------------------

  const DefaultMaxRetries: int := 3
  const FailedStatus: string := "failed"

  /** A queued sync operation as stored; `retryCount` is absent on a fresh record. */
  datatype Operation = Operation(id: int, retryCount: Option<int>, status: string)

  /** `operation.retryCount || 0`. */
  function RetriesSoFar(op: Operation): int
  {
    if op.retryCount.Some? && op.retryCount.value != 0 then op.retryCount.value else 0
  }

  /** One more retry counted; the operation fails once the count reaches the maximum. */
  function Retried(op: Operation, maxRetries: int): (r: Operation)
    ensures r.id == op.id
    ensures r.retryCount == Some(RetriesSoFar(op) + 1)
    ensures r.status == FailedStatus <==> RetriesSoFar(op) + 1 >= maxRetries || op.status == FailedStatus
    ensures RetriesSoFar(op) + 1 < maxRetries ==> r.status == op.status
  {
    var count := RetriesSoFar(op) + 1;
    op.(retryCount := Some(count), status := if count >= maxRetries then FailedStatus else op.status)
  }

  function RetriedTimes(op: Operation, maxRetries: int, n: nat): Operation
  {
    if n == 0 then op else Retried(RetriedTimes(op, maxRetries, n - 1), maxRetries)
  }

  /** Starting from a record without retries, the n-th retry (n >= 1) leaves the count at n,
      and the operation is failed exactly when n has reached the maximum. */
  lemma {:induction false} FailsAfterMaxRetries(op: Operation, maxRetries: int, n: nat)
    requires RetriesSoFar(op) == 0 && op.status != FailedStatus
    requires n >= 1
    ensures RetriedTimes(op, maxRetries, n).retryCount == Some(n)
    ensures RetriedTimes(op, maxRetries, n).status == FailedStatus <==> n >= maxRetries
    ensures n < maxRetries ==> RetriedTimes(op, maxRetries, n).status == op.status
  {
    if n > 1 {
      FailsAfterMaxRetries(op, maxRetries, n - 1);
    }
  }

  const MinSyncMinutes: real := 1.0
  const MaxSyncMinutes: real := 1440.0

  /** The service state the model keeps: whether the local database is open, the stored sync
      queue (by operation id) and the sync interval in the offline store. */
  class OfflineService {
    var databaseOpen: bool
    var storedQueue: map<int, Operation>
    var syncInterval: real
    const maxRetries: int

    constructor(databaseOpen: bool, storedQueue: map<int, Operation>, syncInterval: real)
      ensures this.databaseOpen == databaseOpen && this.storedQueue == storedQueue
      ensures this.syncInterval == syncInterval && maxRetries == DefaultMaxRetries
    {
      this.databaseOpen := databaseOpen;
      this.storedQueue := storedQueue;
      this.syncInterval := syncInterval;
      maxRetries := DefaultMaxRetries;
    }

    /** _updateRetryCount: without a database, or for an id that is not stored, nothing
      changes; otherwise the stored record has one more retry counted. */
    method UpdateRetryCount(id: int)
      modifies this`storedQueue
      ensures databaseOpen && id in old(storedQueue) ==>
        storedQueue == old(storedQueue)[id := Retried(old(storedQueue)[id], maxRetries)]
      ensures !(databaseOpen && id in old(storedQueue)) ==> storedQueue == old(storedQueue)
    {
      if !databaseOpen {
        return;
      }
      if id in storedQueue {
        var operation := storedQueue[id];
        var count := RetriesSoFar(operation) + 1;
        operation := operation.(retryCount := Some(count));
        if count >= maxRetries {
          operation := operation.(status := FailedStatus);
        }
        storedQueue := storedQueue[id := operation];
      }
    }

    /** setSyncInterval: a value outside 1..1440 minutes is refused and nothing changes.
      Otherwise the interval is stored in the offline store first; the write to the local
      database that follows fails without an open database, so the call then reports failure
      although the new interval has already been stored. */
    method SetSyncInterval(minutes: real) returns (ok: bool)
      modifies this`syncInterval
      ensures ok <==> MinSyncMinutes <= minutes <= MaxSyncMinutes && databaseOpen
      ensures MinSyncMinutes <= minutes <= MaxSyncMinutes ==> syncInterval == minutes
      ensures !(MinSyncMinutes <= minutes <= MaxSyncMinutes) ==> syncInterval == old(syncInterval)
    {
      if minutes < MinSyncMinutes || minutes > MaxSyncMinutes {
        return false;
      }
      syncInterval := minutes;
      if !databaseOpen {
        return false;
      }
      return true;
    }
  }
}
