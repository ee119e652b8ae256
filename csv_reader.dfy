/**
 * A reader for comma-separated text in the format of section 2 of
 * RFC 4180, with `\n` as the record separator. It is the reference the CSV
 * export is checked against: it is not part of the dashboard.
 *
 * A field that starts with `"` is quoted: it runs to the next `"` that is
 * not doubled, and `""` inside it stands for one `"`. Any other field runs
 * to the next `,` or `\n`. The reader is lenient: an unterminated quoted
 * field runs to the end of the text, and text after a closing quote that is
 * neither `,` nor `\n` ends the document.
 *
 * A `\n` at the very end of the text is read as the start of one more
 * record, holding one empty field. Rule 2 of section 2 of RFC 4180 lets the
 * last record end with a line break instead; this reader does not take
 * that reading, so that a last record made of one empty field is kept.
 */
module CsvReader {

  /** Text that may follow a field: nothing, or a field or record separator. */
  predicate Terminates(t: string)
  {
    t == [] || t[0] == ',' || t[0] == '\n'
  }

  /** Reads the body of a quoted field, just after its opening quote; returns it and what follows the closing quote. */
  function ReadQuoted(s: string): (r: (string, string))
    ensures |r.1| <= |s|
  {
    if s == [] then ([], [])
    else if s[0] == '"' then
      if |s| > 1 && s[1] == '"' then
        var (f, rest) := ReadQuoted(s[2..]);
        (['"'] + f, rest)
      else ([], s[1..])
    else
      var (f, rest) := ReadQuoted(s[1..]);
      ([s[0]] + f, rest)
  }

  /** Reads an unquoted field: everything up to the next separator. */
  function ReadPlain(s: string): (r: (string, string))
    ensures |r.1| <= |s|
    ensures s == r.0 + r.1 && Terminates(r.1)
    ensures ',' !in r.0 && '\n' !in r.0
  {
    if s == [] || s[0] == ',' || s[0] == '\n' then ([], s)
    else
      var (f, rest) := ReadPlain(s[1..]);
      ([s[0]] + f, rest)
  }

  /** Reads one field; returns it and the text after it. */
  function ReadField(s: string): (r: (string, string))
    ensures |r.1| <= |s|
  {
    if s != [] && s[0] == '"' then ReadQuoted(s[1..]) else ReadPlain(s)
  }

  /** Reads the fields of one record; returns them and the text after the record. */
  function ReadRecord(s: string): (r: (seq<string>, string))
    ensures |r.0| >= 1 && |r.1| <= |s|
    decreases |s|
  {
    var (f, rest) := ReadField(s);
    if rest != [] && rest[0] == ',' then
      var (fs, rest') := ReadRecord(rest[1..]);
      ([f] + fs, rest')
    else ([f], rest)
  }

  /** Reads every record of a document. */
  function ReadDocument(s: string): (rows: seq<seq<string>>)
    ensures |rows| >= 1
    decreases |s|
  {
    var (fields, rest) := ReadRecord(s);
    if rest != [] && rest[0] == '\n' then [fields] + ReadDocument(rest[1..])
    else [fields]
  }

  /** A doubled quote inside a quoted field stands for one quote. */
  lemma ReadQuotedDoubled(s: string)
    ensures ReadQuoted("\"\"" + s) == (['"'] + ReadQuoted(s).0, ReadQuoted(s).1)
  {
    assert ("\"\"" + s)[2..] == s;
  }

  /** Any other character is part of the quoted field. */
  lemma ReadQuotedOther(c: char, s: string)
    requires c != '"'
    ensures ReadQuoted([c] + s) == ([c] + ReadQuoted(s).0, ReadQuoted(s).1)
  {
    assert ([c] + s)[1..] == s;
  }

  /** A quote not followed by another closes the field. */
  lemma ReadQuotedClose(t: string)
    requires Terminates(t)
    ensures ReadQuoted("\"" + t) == ([], t)
  {
    assert ("\"" + t)[1..] == t;
  }

  /** Plain text without separators reads back as itself. */
  lemma {:induction false} ReadPlainText(p: string, t: string)
    requires ',' !in p && '\n' !in p && Terminates(t)
    ensures ReadPlain(p + t) == (p, t)
  {
    if p == [] {
      assert p + t == t;
    } else {
      ReadPlainText(p[1..], t);
      assert (p + t)[1..] == p[1..] + t;
      assert (p + t)[0] == p[0];
      assert [p[0]] + p[1..] == p;
    }
  }

  /**
   * A line break at the end of the text starts one more record, with one
   * empty field: a last record of plain text followed by `\n` reads as two.
   */
  lemma TrailingLineBreakIsRecord(p: string)
    requires ',' !in p && '\n' !in p && (p == [] || p[0] != '"')
    ensures ReadDocument(p + "\n") == [[p], [""]]
  {
    ReadPlainRecord(p, "\n");
    ReadNextRecord(p + "\n", [p], "\n");
    EmptyDocument();
    assert "\n"[1..] == [];
  }

  /** Plain text followed by a line break or by nothing is a record of one field. */
  lemma ReadPlainRecord(p: string, t: string)
    requires ',' !in p && '\n' !in p && (p == [] || p[0] != '"')
    requires t == [] || t[0] == '\n'
    ensures ReadRecord(p + t) == ([p], t)
  {
    ReadPlainText(p, t);
    if p + t != [] {
      assert (p + t)[0] == if p == [] then t[0] else p[0];
      PlainFieldStart(p, t);
    }
  }

  /** Text that does not start with `"` is read as a plain field. */
  lemma PlainFieldStart(p: string, t: string)
    requires p + t != [] && (p + t)[0] != '"'
    ensures ReadField(p + t) == ReadPlain(p + t)
  {
  }

  /** The empty text is one record with one empty field. */
  lemma EmptyDocument()
    ensures ReadDocument([]) == [[""]]
  {
    assert ReadRecord([]) == ([""], []);
  }

  /** A record followed by a line break is followed by more records. */
  lemma ReadNextRecord(s: string, fields: seq<string>, rest: string)
    requires ReadRecord(s) == (fields, rest) && rest != [] && rest[0] == '\n'
    ensures ReadDocument(s) == [fields] + ReadDocument(rest[1..])
  {
  }

  /** A record with nothing after it is the last one. */
  lemma ReadLastRecord(s: string, fields: seq<string>)
    requires ReadRecord(s) == (fields, [])
    ensures ReadDocument(s) == [fields]
  {
  }

  /** A field followed by `,` is followed by more fields of the same record. */
  lemma ReadFieldThenComma(s: string, f: string, rest: string)
    requires ReadField(s) == (f, rest) && rest != [] && rest[0] == ','
    ensures ReadRecord(s) == ([f] + ReadRecord(rest[1..]).0, ReadRecord(rest[1..]).1)
  {
  }

  /** A field not followed by `,` is the last of its record. */
  lemma ReadOnlyField(s: string, f: string, rest: string)
    requires ReadField(s) == (f, rest) && (rest == [] || rest[0] != ',')
    ensures ReadRecord(s) == ([f], rest)
  {
  }
}
