/**
 * The report page (src/app/report/page.tsx): the form that enables the
 * history query, and the CSV text `handleExportCSV` builds from the
 * fetched history rows.
 */
module Report {
  import opened Types
  import opened CsvReader
  import QueryCache

  // ---------------------------------------------------------------------
  // CSV construction

  /**
   * `parts.join(sep)`: the parts with one `sep` between neighbours, and none
   * before the first or after the last part.
   */
  function Join(sep: char, parts: seq<string>): (r: string)
    ensures parts == [] ==> r == []
    ensures |parts| >= 1 ==> |r| == TotalLength(parts) + |parts| - 1 && parts[0] <= r
  {
    if parts == [] then []
    else if |parts| == 1 then parts[0]
    else parts[0] + [sep] + Join(sep, parts[1..])
  }

  /** The number of characters in all parts together. */
  function TotalLength(parts: seq<string>): nat
  {
    if parts == [] then 0 else |parts[0]| + TotalLength(parts[1..])
  }

  /** `s.replace(/"/g, '""')`. */
  function EscapeQuotes(s: string): (r: string)
    ensures '"' !in s ==> r == s
    ensures |r| >= |s|
  {
    if s == [] then []
    else (if s[0] == '"' then "\"\"" else [s[0]]) + EscapeQuotes(s[1..])
  }

  /** The text `Array.join` gives for a value: `null` and `undefined` give the empty string. */
  function Text(v: Option<JsValue>): (t: string)
    ensures v.None? || v == Some(JsNull) ==> t == ""
    ensures v.Some? && v.value.JsString? ==> t == v.value.s
  {
    match v
    case None => ""
    case Some(JsString(s)) => s
    case Some(JsNumber(t)) => t
    case Some(JsBool(b)) => if b then "true" else "false"
    case Some(JsNull) => ""
  }

  /** A string value that contains a comma: the only kind of value the export quotes. */
  predicate Quotes(v: Option<JsValue>)
    ensures Quotes(v) ==> ',' in Text(v)
  {
    v.Some? && v.value.JsString? && ',' in v.value.s
  }

  /** `"` + the text with every `"` doubled + `"`. */
  function Quoted(s: string): (q: string)
    ensures |q| >= |s| + 2 && q[0] == '"' && q[|q| - 1] == '"'
  {
    "\"" + EscapeQuotes(s) + "\""
  }

  /**
   * One cell: a string containing a comma is quoted with its quotes doubled;
   * anything else is emitted as its plain text, quotes and line breaks
   * included.
   */
  function Cell(v: Option<JsValue>): (c: string)
    ensures Quotes(v) ==> c == Quoted(v.value.s)
    ensures !Quotes(v) ==> c == Text(v)
    ensures ReadsBack(v) ==> Encodes(c, Text(v))
  {
    if Quotes(v) then Quoted(v.value.s) else Text(v)
  }

  /** The cells of one record, one per header, in header order. */
  function RowCells(headers: seq<string>, rec: HistoryRecord): (cells: seq<string>)
    ensures |cells| == |headers|
    ensures forall i :: 0 <= i < |headers| ==> cells[i] == Cell(Lookup(rec, headers[i]))
  {
    if headers == [] then []
    else [Cell(Lookup(rec, headers[0]))] + RowCells(headers[1..], rec)
  }

  /** The lines of the export: the header line, then one line per record. */
  function Lines(records: seq<HistoryRecord>): (lines: seq<string>)
    requires |records| > 0
    ensures |lines| == |records| + 1
    ensures lines[0] == Join(',', Keys(records[0]))
    ensures forall i :: 0 <= i < |records| ==> lines[i + 1] == Join(',', RowCells(Keys(records[0]), records[i]))
  {
    var headers := Keys(records[0]);
    [Join(',', headers)] + seq(|records|, i requires 0 <= i < |records| => Join(',', RowCells(headers, records[i])))
  }

  /**
   * `handleExportCSV`'s text: nothing when there are no rows; otherwise the
   * lines joined by `\n`, with no line break after the last one.
   */
  function ExportCsv(records: seq<HistoryRecord>): (r: Option<string>)
    ensures r.None? <==> |records| == 0
    ensures r.Some? ==> r.value == Join('\n', Lines(records))
  {
    if |records| == 0 then None else Some(Join('\n', Lines(records)))
  }

  // ---------------------------------------------------------------------
  // Splitting the lines back apart

  /** Cuts text at every `sep`. */
  function Split(sep: char, s: string): (parts: seq<string>)
    ensures |parts| >= 1
  {
    if s == [] then [[]]
    else
      var rest := Split(sep, s[1..]);
      if s[0] == sep then [[]] + rest
      else [[s[0]] + rest[0]] + rest[1..]
  }

  /** Splitting text that was joined by `sep` gives the parts back, when no part contains `sep`. */
  lemma {:induction false} SplitJoin(sep: char, parts: seq<string>)
    requires |parts| >= 1
    requires forall i :: 0 <= i < |parts| ==> sep !in parts[i]
    ensures Split(sep, Join(sep, parts)) == parts
  {
    if |parts| == 1 {
      SplitNoSep(sep, parts[0], []);
      assert parts[0] + [] == parts[0];
    } else {
      SplitJoin(sep, parts[1..]);
      assert Join(sep, parts) == parts[0] + ([sep] + Join(sep, parts[1..]));
      SplitNoSep(sep, parts[0], [sep] + Join(sep, parts[1..]));
    }
  }

  /** A part without `sep` becomes the front of the first piece. */
  lemma {:induction false} SplitNoSep(sep: char, p: string, t: string)
    requires sep !in p
    requires t == [] || t[0] == sep
    ensures t == [] ==> Split(sep, p + t) == [p]
    ensures t != [] ==> Split(sep, p + t) == [p] + Split(sep, t[1..])
  {
    if p == [] {
      assert p + t == t;
    } else {
      SplitNoSep(sep, p[1..], t);
      assert (p + t)[1..] == p[1..] + t;
      assert (p + t)[0] == p[0] != sep;
      assert [p[0]] + p[1..] == p;
    }
  }

  /**
   * When no header and no cell contains a line break, cutting the export
   * at its line breaks gives exactly the header line and one line per record.
   */
  lemma ExportLines(records: seq<HistoryRecord>)
    requires |records| > 0
    requires forall i :: 0 <= i < |Lines(records)| ==> '\n' !in Lines(records)[i]
    ensures Split('\n', ExportCsv(records).value) == Lines(records)
    ensures |Split('\n', ExportCsv(records).value)| == |records| + 1
  {
    SplitJoin('\n', Lines(records));
  }

  // ---------------------------------------------------------------------
  // Reading the export back with an RFC 4180 reader

  /** Text that reads back as itself when left unquoted. */
  predicate PlainSafe(p: string)
  {
    ',' !in p && '\n' !in p && (p == [] || p[0] != '"')
  }

  /** `cell` is a written form of `text`: `text` itself, or `text` quoted. */
  predicate Encodes(cell: string, text: string)
  {
    (cell == text && PlainSafe(text)) || cell == Quoted(text)
  }

  /** A quoted body with its quotes doubled reads back as the original text. */
  lemma {:induction false} ReadQuotedEscaped(v: string, t: string)
    requires Terminates(t)
    ensures ReadQuoted(EscapeQuotes(v) + "\"" + t) == (v, t)
  {
    EscapedBodyThenClose(v, t);
    if v == [] {
      ReadQuotedClose(t);
    } else {
      ReadQuotedEscaped(v[1..], t);
      var s' := EscapeQuotes(v[1..]) + "\"" + t;
      EscapedCons(v, "\"" + t);
      EscapedBodyThenClose(v[1..], t);
      if v[0] == '"' {
        ReadQuotedDoubled(s');
      } else {
        ReadQuotedOther(v[0], s');
      }
      assert [v[0]] + v[1..] == v;
    }
  }

  /** Regrouping the escaped body, its closing quote and what follows. */
  lemma EscapedBodyThenClose(v: string, t: string)
    ensures EscapeQuotes(v) + "\"" + t == EscapeQuotes(v) + ("\"" + t)
    ensures v == [] ==> EscapeQuotes(v) + ("\"" + t) == "\"" + t
  {
  }

  /** Escaping the first character, then the rest. */
  lemma EscapedCons(v: string, r: string)
    requires v != []
    ensures EscapeQuotes(v) + r == (if v[0] == '"' then "\"\"" else [v[0]]) + (EscapeQuotes(v[1..]) + r)
  {
  }

  /** A written field followed by a separator reads back as its text. */
  lemma ReadEncodedField(cell: string, text: string, t: string)
    requires Encodes(cell, text) && Terminates(t)
    ensures ReadField(cell + t) == (text, t)
  {
    if cell == Quoted(text) {
      ReadQuotedEscaped(text, t);
      assert (cell + t)[1..] == EscapeQuotes(text) + "\"" + t;
    } else {
      ReadPlainText(text, t);
    }
  }

  /** Written fields joined by `,` read back as one record of their texts. */
  lemma {:induction false} ReadEncodedRecord(cells: seq<string>, texts: seq<string>, t: string)
    requires |cells| == |texts| >= 1
    requires forall i :: 0 <= i < |cells| ==> Encodes(cells[i], texts[i])
    requires t == [] || t[0] == '\n'
    ensures ReadRecord(Join(',', cells) + t) == (texts, t)
  {
    if |cells| == 1 {
      ReadEncodedField(cells[0], texts[0], t);
      ReadOnlyField(cells[0] + t, texts[0], t);
      assert texts == [texts[0]];
    } else {
      var tail := Join(',', cells[1..]) + t;
      var rest := [','] + tail;
      JoinFirst(',', cells);
      assert Join(',', cells) + t == cells[0] + rest;
      ReadEncodedField(cells[0], texts[0], rest);
      ReadEncodedRecord(cells[1..], texts[1..], t);
      assert rest[1..] == tail;
      ReadFieldThenComma(cells[0] + rest, texts[0], rest);
      assert [texts[0]] + texts[1..] == texts;
    }
  }

  /** Records of written fields joined by `\n` read back as the table of their texts. */
  lemma {:induction false} ReadEncodedDocument(lines: seq<seq<string>>, table: seq<seq<string>>)
    requires |lines| == |table| >= 1
    requires forall i :: 0 <= i < |lines| ==> |lines[i]| == |table[i]| >= 1
    requires forall i, j :: 0 <= i < |lines| && 0 <= j < |lines[i]| ==> Encodes(lines[i][j], table[i][j])
    ensures ReadDocument(Join('\n', JoinEach(lines))) == table
  {
    var first := Join(',', lines[0]);
    if |lines| == 1 {
      assert JoinEach(lines) == [first];
      assert Join('\n', JoinEach(lines)) == first + [];
      ReadEncodedRecord(lines[0], table[0], []);
      ReadLastRecord(first + [], table[0]);
    } else {
      var tailDoc := Join('\n', JoinEach(lines[1..]));
      var rest := ['\n'] + tailDoc;
      assert JoinEach(lines) == [first] + JoinEach(lines[1..]);
      JoinFirst('\n', JoinEach(lines));
      ReadEncodedRecord(lines[0], table[0], rest);
      ReadNextRecord(first + rest, table[0], rest);
      assert rest[1..] == tailDoc;
      ReadEncodedDocument(lines[1..], table[1..]);
      assert [table[0]] + table[1..] == table;
    }
  }

  /** Joining at least two parts: the first part, a separator, and the rest joined. */
  lemma JoinFirst(sep: char, parts: seq<string>)
    requires |parts| >= 2
    ensures Join(sep, parts) == parts[0] + ([sep] + Join(sep, parts[1..]))
  {
  }

  /** Each list of cells joined by `,`. */
  function JoinEach(lines: seq<seq<string>>): (r: seq<string>)
    ensures |r| == |lines|
    ensures forall i :: 0 <= i < |lines| ==> r[i] == Join(',', lines[i])
  {
    if lines == [] then [] else [Join(',', lines[0])] + JoinEach(lines[1..])
  }

  /**
   * The values the export writes so that they read back: a string with a
   * comma (it is quoted), and otherwise any value whose text has no `,`,
   * no line break and does not start with `"`.
   */
  predicate ReadsBack(v: Option<JsValue>)
  {
    Quotes(v) || PlainSafe(Text(v))
  }

  /** The texts of one record's cells, one per header. */
  function RowTexts(headers: seq<string>, rec: HistoryRecord): (texts: seq<string>)
    ensures |texts| == |headers|
    ensures forall i :: 0 <= i < |headers| ==> texts[i] == Text(Lookup(rec, headers[i]))
  {
    seq(|headers|, i requires 0 <= i < |headers| => Text(Lookup(rec, headers[i])))
  }

  /** The table a reader should see: the first record's keys, then each record's texts under them. */
  function Table(records: seq<HistoryRecord>): (table: seq<seq<string>>)
    requires |records| > 0
    ensures |table| == |records| + 1
  {
    var headers := Keys(records[0]);
    [headers] + seq(|records|, i requires 0 <= i < |records| => RowTexts(headers, records[i]))
  }

  /**
   * Read by an RFC 4180 reader, the export gives back the first record's
   * keys as the header and, for every record, the text of each header's
   * value (empty where the record lacks it) — provided there is at least
   * one header, every header reads back unquoted, and every value is one
   * that reads back.
   */
  lemma ExportReadsBack(records: seq<HistoryRecord>)
    requires |records| > 0 && |Keys(records[0])| > 0
    requires forall j :: 0 <= j < |Keys(records[0])| ==> PlainSafe(Keys(records[0])[j])
    requires forall i, j :: 0 <= i < |records| && 0 <= j < |Keys(records[0])| ==> ReadsBack(Lookup(records[i], Keys(records[0])[j]))
    ensures ReadDocument(ExportCsv(records).value) == Table(records)
  {
    var headers := Keys(records[0]);
    var cells := [headers] + seq(|records|, i requires 0 <= i < |records| => RowCells(headers, records[i]));
    var table := Table(records);
    forall i, j | 0 <= i < |cells| && 0 <= j < |cells[i]|
      ensures Encodes(cells[i][j], table[i][j])
    {
      if i > 0 {
        var v := Lookup(records[i - 1], headers[j]);
        assert Encodes(Cell(v), Text(v));
      }
    }
    ReadEncodedDocument(cells, table);
    assert JoinEach(cells) == Lines(records);
  }

  /** A string with a quote, or with a line break, but no comma is written unquoted ... */
  lemma NoCommaWrittenRaw()
    ensures ExportCsv([[Field("k", JsString("\"x\""))]]) == Some("k\n\"x\"")
    ensures ExportCsv([[Field("k", JsString("a\nb"))]]) == Some("k\na\nb")
  {
    var rec := [Field("k", JsString("\"x\""))];
    assert Keys(rec) == ["k"];
    assert Lookup(rec, "k") == Some(JsString("\"x\""));
    assert ',' !in "\"x\"";
    assert RowCells(["k"], rec) == ["\"x\""];
    assert Lines([rec]) == ["k", "\"x\""];
    assert Join('\n', ["k", "\"x\""]) == "k\n\"x\"";
    var rec' := [Field("k", JsString("a\nb"))];
    assert Keys(rec') == ["k"];
    assert Lookup(rec', "k") == Some(JsString("a\nb"));
    assert ',' !in "a\nb";
    assert RowCells(["k"], rec') == ["a\nb"];
    assert Lines([rec']) == ["k", "a\nb"];
    assert Join('\n', ["k", "a\nb"]) == "k\na\nb";
  }

  /** ... a reader strips the quotes of the first, ... */
  lemma QuoteWithoutCommaIsNotReadBack()
    ensures ReadDocument("k\n\"x\"") == [["k"], ["x"]]
  {
    ReadPlainRecord("k", "\n\"x\"");
    assert "k" + "\n\"x\"" == "k\n\"x\"";
    ReadNextRecord("k\n\"x\"", ["k"], "\n\"x\"");
    assert "\n\"x\""[1..] == "\"x\"";
    assert ReadRecord("\"x\"") == (["x"], []) by {
      ReadEncodedField("\"x\"", "x", []);
      assert "\"x\"" + [] == "\"x\"";
    }
    ReadLastRecord("\"x\"", ["x"]);
  }

  /** ... and reads the second as two records. */
  lemma LineBreakWithoutCommaSplitsRecord()
    ensures |ReadDocument("k\na\nb")| == 3
  {
    ReadPlainText("k", "\na\nb");
    assert "k\na\nb" == "k" + "\na\nb";
    ReadPlainText("a", "\nb");
    assert "a\nb" == "a" + "\nb";
    ReadPlainText("b", []);
    assert "b" == "b" + [];
  }

  /**
   * A last row whose only cell is empty leaves a line break at the very end
   * of the export; it is read back as that row only because the reader
   * takes a final line break to start one more record.
   */
  lemma EmptyLastRowEndsWithLineBreak()
    ensures ExportCsv([[Field("k", JsString("a"))], []]) == Some("k\na\n")
    ensures ReadDocument("k\na\n") == [["k"], ["a"], [""]]
  {
    var records := [[Field("k", JsString("a"))], []];
    assert Keys(records[0]) == ["k"];
    EmptyLastRowCells();
    assert Lines(records) == ["k", "a", ""];
    EmptyLastRowJoin();
    EmptyLastRowRead();
  }

  /** The three lines joined. */
  lemma EmptyLastRowJoin()
    ensures Join('\n', ["k", "a", ""]) == "k\na\n"
  {
    assert Join('\n', ["a", ""]) == "a\n";
  }

  /** The export read back: the header, the row, and the empty last row. */
  lemma EmptyLastRowRead()
    ensures ReadDocument("k\na\n") == [["k"], ["a"], [""]]
  {
    ReadPlainRecord("k", "\na\n");
    assert "k" + "\na\n" == "k\na\n";
    ReadNextRecord("k\na\n", ["k"], "\na\n");
    assert "\na\n"[1..] == "a" + "\n";
    TrailingLineBreakIsRecord("a");
  }

  /** The cells of the two rows under the one header. */
  lemma EmptyLastRowCells()
    ensures RowCells(["k"], [Field("k", JsString("a"))]) == ["a"]
    ensures RowCells(["k"], []) == [""]
  {
    assert ',' !in "a";
  }

  /**
   * The header comes from the first record alone: a key only a later
   * record has gets no column, and a record lacking a header gets an empty cell.
   */
  lemma HeaderFromFirstRecordOnly()
    ensures ExportCsv([[Field("timestamp", JsString("t1"))],
                       [Field("timestamp", JsString("t2")), Field("extra", JsNumber("5"))],
                       []]) == Some("timestamp\nt1\nt2\n")
  {
    var records := [[Field("timestamp", JsString("t1"))],
                    [Field("timestamp", JsString("t2")), Field("extra", JsNumber("5"))],
                    []];
    assert Keys(records[0]) == ["timestamp"];
    HeaderExampleCells();
    assert Lines(records) == ["timestamp", "t1", "t2", ""];
    HeaderExampleJoin();
  }

  /** The cells of the three records under the one header. */
  lemma HeaderExampleCells()
    ensures RowCells(["timestamp"], [Field("timestamp", JsString("t1"))]) == ["t1"]
    ensures RowCells(["timestamp"], [Field("timestamp", JsString("t2")), Field("extra", JsNumber("5"))]) == ["t2"]
    ensures RowCells(["timestamp"], []) == [""]
  {
    assert ',' !in "t1" && ',' !in "t2";
  }

  /** The four lines joined. */
  lemma HeaderExampleJoin()
    ensures Join('\n', ["timestamp", "t1", "t2", ""]) == "timestamp\nt1\nt2\n"
  {
    assert Join('\n', ["t2", ""]) == "t2\n";
    assert Join('\n', ["t1", "t2", ""]) == "t1\nt2\n";
  }

  /** A string with a comma is quoted and its quotes doubled. */
  lemma QuotingExample()
    ensures Cell(Some(JsString("a,\"b\""))) == "\"a,\"\"b\"\"\""
  {
    var text := "a,\"b\"";
    assert text[1] == ',';
    assert Cell(Some(JsString(text))) == Quoted(text);
    QuotingExampleEscape();
    QuotedExampleSpelled();
  }

  /** The quotes of the example text doubled. */
  lemma QuotingExampleEscape()
    ensures Quoted("a,\"b\"") == "\"" + "a,\"\"b\"\"" + "\""
  {
    assert EscapeQuotes("\"") == "\"\"";
    assert EscapeQuotes("b\"") == "b\"\"";
    assert EscapeQuotes("\"b\"") == "\"\"b\"\"";
    assert EscapeQuotes(",\"b\"") == ",\"\"b\"\"";
    assert EscapeQuotes("a,\"b\"") == "a,\"\"b\"\"";
    assert Quoted("a,\"b\"") == "\"" + EscapeQuotes("a,\"b\"") + "\"";
  }

  /** The quoted example spelled out. */
  lemma QuotedExampleSpelled()
    ensures "\"" + "a,\"\"b\"\"" + "\"" == "\"a,\"\"b\"\"\""
  {
  }

  // ---------------------------------------------------------------------
  // The report form

  /** The report page's form state. */
  class ReportForm {
    var selectedDevice: string
    var startDate: string
    var endDate: string
    var reportGenerated: bool

    constructor ()
      ensures selectedDevice == "" && startDate == "" && endDate == "" && !reportGenerated
    {
      selectedDevice, startDate, endDate := "", "", "";
      reportGenerated := false;
    }

    /** Device, start and end are all chosen. */
    predicate Complete()
      reads this
    {
      selectedDevice != "" && startDate != "" && endDate != ""
    }

    /** The Generate button's `disabled` attribute. */
    predicate GenerateDisabled()
      reads this
    {
      selectedDevice == "" || startDate == "" || endDate == ""
    }

    /** The history query's `enabled` option. */
    predicate HistoryEnabled()
      reads this
    {
      reportGenerated && selectedDevice != "" && startDate != "" && endDate != ""
    }

    /** The device select's `onValueChange`. */
    method SelectDevice(ip: string)
      modifies this
      ensures selectedDevice == ip
      ensures startDate == old(startDate) && endDate == old(endDate) && reportGenerated == old(reportGenerated)
    {
      selectedDevice := ip;
    }

    /** The start input's `onChange`. */
    method SetStartDate(value: string)
      modifies this
      ensures startDate == value
      ensures selectedDevice == old(selectedDevice) && endDate == old(endDate) && reportGenerated == old(reportGenerated)
    {
      startDate := value;
    }

    /** The end input's `onChange`. */
    method SetEndDate(value: string)
      modifies this
      ensures endDate == value
      ensures selectedDevice == old(selectedDevice) && startDate == old(startDate) && reportGenerated == old(reportGenerated)
    {
      endDate := value;
    }

    /**
     * `handleGenerateReport`: marks the report generated when the form is
     * complete, and otherwise changes nothing; it never clears the mark.
     */
    method GenerateReport()
      modifies this
      ensures reportGenerated == (old(reportGenerated) || old(Complete()))
      ensures old(Complete()) ==> HistoryEnabled()
      ensures selectedDevice == old(selectedDevice) && startDate == old(startDate) && endDate == old(endDate)
    {
      if selectedDevice != "" && startDate != "" && endDate != "" {
        reportGenerated := true;
      }
    }
  }

  /** The Generate button is disabled exactly when the form is incomplete. */
  lemma GenerateDisabledIff(f: ReportForm)
    ensures f.GenerateDisabled() <==> !f.Complete()
  {
  }

  /** The history is fetched exactly when a report was generated and the form is complete. */
  lemma HistoryEnabledIff(f: ReportForm)
    ensures f.HistoryEnabled() <==> f.reportGenerated && !f.GenerateDisabled()
  {
  }

  /**
   * A session on the form: Generate does nothing until all three fields
   * are set; once it has worked, the history is fetched whenever the form
   * is complete again, without pressing Generate anew.
   */
  method ReportFlow(ip: string, start: string, end: string)
    returns (generatedEarly: bool, enabledAfterGenerate: bool, enabledAfterClear: bool,
             generatedAfterClear: bool, enabledAfterRefill: bool)
    requires ip != "" && start != "" && end != ""
    ensures !generatedEarly && enabledAfterGenerate
    ensures !enabledAfterClear && generatedAfterClear && enabledAfterRefill
  {
    var form := new ReportForm();
    form.SelectDevice(ip);
    form.GenerateReport();
    generatedEarly := form.reportGenerated;
    form.SetStartDate(start);
    form.SetEndDate(end);
    form.GenerateReport();
    enabledAfterGenerate := form.HistoryEnabled();
    form.SetEndDate("");
    enabledAfterClear, generatedAfterClear := form.HistoryEnabled(), form.reportGenerated;
    form.SetEndDate(end);
    enabledAfterRefill := form.HistoryEnabled();
  }
}
