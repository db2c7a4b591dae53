/**
 * src/lib/bom/exporter.ts: the export row of each BOM line, CSV field
 * escaping as in section 2 of RFC 4180, and the CSV text. A reader for that
 * text is defined here too, so that the escaping can be proved lossless:
 * reading the exported text gives back the header and every cell.
 */
module BomExport {
  import opened Utils
  import opened Text
  import opened BomTypes

  // ----- export rows -----

  /** A cell value: text, or a number (integers and prices). */
  datatype Cell = TextCell(text: string) | IntCell(whole: int) | RealCell(amount: real)

  /** `ExportRow`. */
  datatype ExportRow = ExportRow(
    comment: string,
    designator: string,
    footprint: string,
    lcsc: string,
    quantity: int,
    manufacturer: string,
    mpn: string,
    description: string,
    package: string,
    stock: Cell,
    unitPrice: Cell,
    totalPrice: Cell,
    datasheet: string)

  /** The column names, in the order of the `ExportRow` keys. */
  const Headers: seq<string> := ["Comment", "Designator", "Footprint", "LCSC", "Quantity",
    "Manufacturer", "MPN", "Description", "Package", "Stock",
    "Unit Price (USD)", "Total Price (USD)", "Datasheet"]

  /** `value ?? ''` for a number. */
  function IntOrBlank(o: Option<int>): Cell {
    if o.Some? then IntCell(o.value) else TextCell("")
  }

  function RealOrBlank(o: Option<real>): Cell {
    if o.Some? then RealCell(o.value) else TextCell("")
  }

  /**
   * One element of `transformRows`: the line's own fields, the part record's
   * text fields (empty without a record), and stock and prices kept whenever
   * present, 0 included, and blank only when absent.
   */
  function TransformRow(row: Row): (e: ExportRow)
    ensures e.comment == row.comment && e.designator == row.designator && e.footprint == row.footprint
    ensures e.lcsc == row.lcsc && e.quantity == row.quantity
    ensures row.lcscInfo.None? ==>
              e.manufacturer == "" && e.mpn == "" && e.description == "" && e.package == ""
              && e.datasheet == "" && e.stock == TextCell("")
    ensures row.lcscInfo.Some? ==>
              e.manufacturer == row.lcscInfo.value.manufacturer && e.mpn == row.lcscInfo.value.mpn
              && e.description == row.lcscInfo.value.description && e.package == row.lcscInfo.value.package
              && e.datasheet == row.lcscInfo.value.datasheet && e.stock == IntCell(row.lcscInfo.value.stock)
    ensures e.unitPrice == (if row.unitPrice.Some? then RealCell(row.unitPrice.value) else TextCell(""))
    ensures e.totalPrice == (if row.totalPrice.Some? then RealCell(row.totalPrice.value) else TextCell(""))
  {
    var info := row.lcscInfo;
    ExportRow(
      row.comment, row.designator, row.footprint, row.lcsc, row.quantity,
      if info.Some? then info.value.manufacturer else "",
      if info.Some? then info.value.mpn else "",
      if info.Some? then info.value.description else "",
      if info.Some? then info.value.package else "",
      IntOrBlank(if info.Some? then Some(info.value.stock) else None),
      RealOrBlank(row.unitPrice),
      RealOrBlank(row.totalPrice),
      if info.Some? then info.value.datasheet else "")
  }

  /** `transformRows`: one export row per line, in order. */
  function TransformRows(rows: seq<Row>): (r: seq<ExportRow>)
    ensures |r| == |rows| && forall i | 0 <= i < |rows| :: r[i] == TransformRow(rows[i])
  {
    seq(|rows|, i requires 0 <= i < |rows| => TransformRow(rows[i]))
  }

  /** `String(value)`; the text of a non-integer number is `render`'s. */
  function CellText(c: Cell, render: real -> string): string {
    match c
    case TextCell(s) => s
    case IntCell(i) => IntToString(i)
    case RealCell(x) => render(x)
  }

  /** The texts of an export row's cells, in column order. */
  function CellTexts(e: ExportRow, render: real -> string): (r: seq<string>)
    ensures |r| == |Headers|
  {
    [e.comment, e.designator, e.footprint, e.lcsc, IntToString(e.quantity),
     e.manufacturer, e.mpn, e.description, e.package, CellText(e.stock, render),
     CellText(e.unitPrice, render), CellText(e.totalPrice, render), e.datasheet]
  }

  /**
   * The 13 texts written for a BOM line, in header order: its own fields, the
   * part record's fields or "" without one, and stock and prices blank when
   * absent (a 0 is written as "0", since `??` keeps it).
   */
  lemma RowCellTexts(row: Row, render: real -> string)
    ensures var r := CellTexts(TransformRow(row), render);
      var info := row.lcscInfo;
      && r[0] == row.comment && r[1] == row.designator && r[2] == row.footprint && r[3] == row.lcsc
      && r[4] == IntToString(row.quantity)
      && r[5] == (if info.Some? then info.value.manufacturer else "")
      && r[6] == (if info.Some? then info.value.mpn else "")
      && r[7] == (if info.Some? then info.value.description else "")
      && r[8] == (if info.Some? then info.value.package else "")
      && r[9] == (if info.Some? then IntToString(info.value.stock) else "")
      && r[10] == (if row.unitPrice.Some? then render(row.unitPrice.value) else "")
      && r[11] == (if row.totalPrice.Some? then render(row.totalPrice.value) else "")
      && r[12] == (if info.Some? then info.value.datasheet else "")
  {
    var e := TransformRow(row);
    var r := CellTexts(e, render);
    assert r[9] == CellText(e.stock, render);
    assert r[10] == CellText(e.unitPrice, render) && r[11] == CellText(e.totalPrice, render);
    if row.lcscInfo.Some? {
      assert e.stock == IntCell(row.lcscInfo.value.stock);
    } else {
      assert e.stock == TextCell("");
    }
  }

  // ----- escaping -----

  predicate NeedsQuoting(s: string) {
    ',' in s || '"' in s || '\n' in s
  }

  /** `str.replace(/"/g, '""')`. */
  function DoubleQuotes(s: string): (r: string)
    ensures |r| >= |s|
  {
    if s == [] then [] else (if s[0] == '"' then "\"\"" else [s[0]]) + DoubleQuotes(s[1..])
  }

  /** `escapeCsvField`. */
  function Escape(s: string): string {
    if NeedsQuoting(s) then "\"" + DoubleQuotes(s) + "\"" else s
  }

  /** A field without a comma, quote or line feed is written as it is; a lone carriage return does not cause quoting. */
  lemma EscapePlain(s: string)
    requires !NeedsQuoting(s)
    ensures Escape(s) == s
  {
  }

  /** A lone carriage return is not quoted; a quote is doubled and the field quoted. */
  lemma EscapeExamples()
    ensures Escape("a\rb") == "a\rb"
    ensures Escape("a\"b") == "\"a\"\"b\""
  {
    assert !NeedsQuoting("a\rb");
    assert "a\"b"[1] == '"';
    assert "a\"b"[1..] == "\"b" && "\"b"[1..] == "b";
  }

  /** A line of fields: each escaped, joined by commas. */
  function Line(fields: seq<string>): string {
    Join(seq(|fields|, i requires 0 <= i < |fields| => Escape(fields[i])), ",")
  }

  /** One line of text per record. */
  function Lines(records: seq<seq<string>>): (r: seq<string>)
    ensures |r| == |records| && forall k | 0 <= k < |records| :: r[k] == Line(records[k])
  {
    seq(|records|, k requires 0 <= k < |records| => Line(records[k]))
  }

  /** The cell texts of each BOM line's export row, in order. */
  function ExportRecords(rows: seq<Row>, render: real -> string): (r: seq<seq<string>>)
    ensures |r| == |rows| && forall i | 0 <= i < |rows| :: r[i] == CellTexts(TransformRow(rows[i]), render)
  {
    var data := TransformRows(rows);
    seq(|data|, i requires 0 <= i < |data| => CellTexts(data[i], render))
  }

  /**
   * `exportToCsv`'s text: nothing for no rows; otherwise the header line, then
   * one line per row, joined by line feeds with no trailing line feed.
   */
  function CsvText(rows: seq<Row>, render: real -> string): string {
    if rows == [] then ""
    else Join([Join(Headers, ",")] + Lines(ExportRecords(rows, render)), "\n")
  }

  // ----- reading CSV text back -----

  /** An unquoted field: up to the next comma or line feed. */
  function ReadBare(s: string): (r: (string, string))
    ensures |r.1| <= |s|
  {
    if s == [] || s[0] == ',' || s[0] == '\n' then ([], s)
    else
      var (f, rest) := ReadBare(s[1..]);
      ([s[0]] + f, rest)
  }

  /** The inside of a quoted field, after its opening quote: `""` is a quote, a lone `"` closes it. */
  function ReadQuoted(s: string): (r: (string, string))
    ensures |r.1| <= |s|
  {
    if s == [] then ([], [])
    else if s[0] == '"' then
      if |s| >= 2 && s[1] == '"' then
        var (f, rest) := ReadQuoted(s[2..]);
        (['"'] + f, rest)
      else ([], s[1..])
    else
      var (f, rest) := ReadQuoted(s[1..]);
      ([s[0]] + f, rest)
  }

  function ReadField(s: string): (r: (string, string))
    ensures |r.1| <= |s|
  {
    if s != [] && s[0] == '"' then ReadQuoted(s[1..]) else ReadBare(s)
  }

  /** The fields of one record, and the text after its line feed. */
  function ReadRecord(s: string): (r: (seq<string>, string))
    ensures s != [] ==> |r.1| < |s|
    decreases |s|
  {
    var (f, rest) := ReadField(s);
    if rest == [] then ([f], [])
    else if rest[0] == ',' then
      var (fs, after) := ReadRecord(rest[1..]);
      ([f] + fs, after)
    else ([f], rest[1..])
  }

  /** The records of a CSV text whose records are separated by line feeds. */
  function ParseCsv(s: string): seq<seq<string>>
    decreases |s|
  {
    if s == [] then []
    else
      var (fields, rest) := ReadRecord(s);
      [fields] + ParseCsv(rest)
  }

  predicate EndsField(rest: string) {
    rest == [] || rest[0] == ',' || rest[0] == '\n'
  }

  lemma {:induction false} ReadBareOfPlain(s: string, rest: string)
    requires !NeedsQuoting(s) && EndsField(rest)
    ensures ReadBare(s + rest) == (s, rest)
  {
    if s == [] {
      assert s + rest == rest;
    } else {
      assert s[0] in s && (s + rest)[0] == s[0];
      assert (s + rest)[1..] == s[1..] + rest;
      assert !NeedsQuoting(s[1..]) by {
        assert forall c | c in s[1..] :: c in s;
      }
      ReadBareOfPlain(s[1..], rest);
      assert [s[0]] + s[1..] == s;
    }
  }

  lemma {:induction false} ReadQuotedOfDoubled(s: string, rest: string)
    requires rest == [] || rest[0] != '"'
    ensures ReadQuoted(DoubleQuotes(s) + "\"" + rest) == (s, rest)
  {
    var t := DoubleQuotes(s) + "\"" + rest;
    if s == [] {
      assert t == "\"" + rest;
      assert t[1..] == rest;
    } else if s[0] == '"' {
      assert t == "\"\"" + (DoubleQuotes(s[1..]) + "\"" + rest);
      assert t[0] == '"' && t[1] == '"';
      assert t[2..] == DoubleQuotes(s[1..]) + "\"" + rest;
      ReadQuotedOfDoubled(s[1..], rest);
      assert ['"'] + s[1..] == s;
    } else {
      assert t == [s[0]] + (DoubleQuotes(s[1..]) + "\"" + rest);
      assert t[0] == s[0];
      assert t[1..] == DoubleQuotes(s[1..]) + "\"" + rest;
      ReadQuotedOfDoubled(s[1..], rest);
      assert [s[0]] + s[1..] == s;
    }
  }

  /** Escaping is lossless: the reader takes back exactly the field, and stops at the delimiter after it. */
  lemma ReadFieldOfEscape(s: string, rest: string)
    requires EndsField(rest)
    ensures ReadField(Escape(s) + rest) == (s, rest)
  {
    if NeedsQuoting(s) {
      var inner := DoubleQuotes(s) + "\"" + rest;
      var t := "\"" + inner;
      assert Escape(s) + rest == t;
      assert t[0] == '"' && t[1..] == inner;
      assert ReadField(t) == ReadQuoted(inner);
      ReadQuotedOfDoubled(s, rest);
    } else {
      var t := s + rest;
      assert Escape(s) == s;
      ReadBareOfPlain(s, rest);
      assert t == [] || t[0] != '"' by {
        if s != [] {
          assert s[0] in s && t[0] == s[0];
        } else {
          assert t == rest;
        }
      }
      assert ReadField(t) == ReadBare(t);
    }
  }

  /** A line of several fields is the first field escaped, a comma, and the line of the others. */
  lemma LineCons(fields: seq<string>)
    requires |fields| >= 2
    ensures Line(fields) == Escape(fields[0]) + "," + Line(fields[1..])
  {
    var escaped := seq(|fields|, i requires 0 <= i < |fields| => Escape(fields[i]));
    var tail := fields[1..];
    assert seq(|tail|, i requires 0 <= i < |tail| => Escape(tail[i])) == escaped[1..];
  }

  lemma LineSingle(fields: seq<string>)
    requires |fields| == 1
    ensures Line(fields) == Escape(fields[0])
  {
    var escaped := seq(|fields|, i requires 0 <= i < |fields| => Escape(fields[i]));
    assert escaped == [Escape(fields[0])];
  }

  /** A field followed by a comma: the record goes on after it. */
  lemma ReadRecordComma(s: string, f: string, after: string)
    requires ReadField(s) == (f, "," + after)
    ensures ReadRecord(s) == ([f] + ReadRecord(after).0, ReadRecord(after).1)
  {
    assert ("," + after)[1..] == after;
  }

  /** A field followed by a line feed or the end: the record ends with it. */
  lemma ReadRecordEnd(s: string, f: string, rest: string)
    requires ReadField(s) == (f, rest) && (rest == [] || rest[0] == '\n')
    ensures ReadRecord(s) == ([f], if rest == [] then [] else rest[1..])
  {
  }

  /** The step of `ReadRecordOfLine` for a line of several fields. */
  lemma ReadRecordOfLineCons(fields: seq<string>, rest: string, next: string)
    requires |fields| >= 2
    requires ReadRecord(Line(fields[1..]) + rest) == (fields[1..], next)
    ensures ReadRecord(Line(fields) + rest) == (fields, next)
  {
    var after := Line(fields[1..]) + rest;
    LineCons(fields);
    assert Line(fields) + rest == Escape(fields[0]) + ("," + after);
    ReadFieldOfEscape(fields[0], "," + after);
    ReadRecordComma(Line(fields) + rest, fields[0], after);
    assert [fields[0]] + fields[1..] == fields;
  }

  lemma {:induction false} ReadRecordOfLine(fields: seq<string>, rest: string)
    requires |fields| >= 1 && (rest == [] || rest[0] == '\n')
    ensures ReadRecord(Line(fields) + rest) == (fields, if rest == [] then [] else rest[1..])
  {
    if |fields| == 1 {
      LineSingle(fields);
      ReadFieldOfEscape(fields[0], rest);
      ReadRecordEnd(Line(fields) + rest, fields[0], rest);
      assert [fields[0]] == fields;
    } else {
      ReadRecordOfLine(fields[1..], rest);
      ReadRecordOfLineCons(fields, rest, if rest == [] then [] else rest[1..]);
    }
  }

  /** Lines of at least two fields read back as their fields. */
  lemma {:induction false} ParseCsvOfLines(records: seq<seq<string>>)
    requires forall k | 0 <= k < |records| :: |records[k]| >= 2
    ensures ParseCsv(Join(Lines(records), "\n")) == records
  {
    if records != [] {
      var lines := Lines(records);
      var tail := records[1..];
      assert Lines(tail) == lines[1..];
      LineNonEmpty(records[0]);
      if |records| == 1 {
        ReadRecordOfLine(records[0], []);
        assert lines[0] + [] == lines[0];
      } else {
        assert Join(lines, "\n") == lines[0] + ("\n" + Join(Lines(tail), "\n"));
        ReadRecordOfLine(records[0], "\n" + Join(Lines(tail), "\n"));
        assert ("\n" + Join(Lines(tail), "\n"))[1..] == Join(Lines(tail), "\n");
        ParseCsvOfLines(tail);
      }
      assert [records[0]] + tail == records;
    }
  }

  lemma LineNonEmpty(fields: seq<string>)
    requires |fields| >= 2
    ensures Line(fields) != []
  {
    LineCons(fields);
  }

  /** A line of fields none of which needs quoting is the fields joined by commas. */
  lemma LineOfPlain(fields: seq<string>)
    requires forall i | 0 <= i < |fields| :: !NeedsQuoting(fields[i])
    ensures Line(fields) == Join(fields, ",")
  {
    var escaped := seq(|fields|, i requires 0 <= i < |fields| => Escape(fields[i]));
    assert escaped == fields;
  }

  /** No column name contains a comma, quote or line feed, so the header line needs no escaping. */
  lemma HeadersArePlain()
    ensures forall i | 0 <= i < |Headers| :: !NeedsQuoting(Headers[i])
  {
    forall i | 0 <= i < |Headers| ensures !NeedsQuoting(Headers[i]) {
      if i < 5 { LineFieldsArePlain(i); }
      else if i < 9 { PartFieldsArePlain(i); }
      else { PriceFieldsArePlain(i); }
    }
  }

  lemma LineFieldsArePlain(i: nat)
    requires i < 5
    ensures !NeedsQuoting(Headers[i])
  {
    if i == 0 { assert Headers[i] == "Comment"; }
    else if i == 1 { assert Headers[i] == "Designator"; }
    else if i == 2 { assert Headers[i] == "Footprint"; }
    else if i == 3 { assert Headers[i] == "LCSC"; }
    else { assert Headers[i] == "Quantity"; }
  }

  lemma PartFieldsArePlain(i: nat)
    requires 5 <= i < 9
    ensures !NeedsQuoting(Headers[i])
  {
    if i == 5 { assert Headers[i] == "Manufacturer"; }
    else if i == 6 { assert Headers[i] == "MPN"; }
    else if i == 7 { assert Headers[i] == "Description"; }
    else { assert Headers[i] == "Package"; }
  }

  lemma PriceFieldsArePlain(i: nat)
    requires 9 <= i < 13
    ensures !NeedsQuoting(Headers[i])
  {
    if i == 9 { assert Headers[i] == "Stock"; }
    else if i == 10 { assert Headers[i] == "Unit Price (USD)"; }
    else if i == 11 { assert Headers[i] == "Total Price (USD)"; }
    else { assert Headers[i] == "Datasheet"; }
  }

  /** The header line comes first, then the lines of the body. */
  lemma LinesOfHeaderAndBody(body: seq<seq<string>>)
    ensures Lines([Headers] + body) == [Line(Headers)] + Lines(body)
  {
    var records := [Headers] + body;
    forall k | 1 <= k < |records| ensures Lines(records)[k] == Lines(body)[k - 1] {
      assert records[k] == body[k - 1];
    }
  }

  /** The exported text is the lines of the header and of each export record. */
  lemma CsvTextIsLines(rows: seq<Row>, render: real -> string)
    requires rows != []
    ensures CsvText(rows, render) == Join(Lines([Headers] + ExportRecords(rows, render)), "\n")
  {
    var body := ExportRecords(rows, render);
    HeadersArePlain();
    LineOfPlain(Headers);
    LinesOfHeaderAndBody(body);
    var headerLine := Join(Headers, ",");
    assert CsvText(rows, render) == Join([headerLine] + Lines(body), "\n");
    assert Lines([Headers] + body) == [headerLine] + Lines(body);
  }

  lemma RecordsAreWide(body: seq<seq<string>>)
    requires forall k | 0 <= k < |body| :: |body[k]| == |Headers|
    ensures forall k | 0 <= k < |[Headers] + body| :: |([Headers] + body)[k]| >= 2
  {
    var records := [Headers] + body;
    forall k | 0 <= k < |records| ensures |records[k]| >= 2 {
      if k > 0 { assert records[k] == body[k - 1]; }
    }
  }

  /**
   * Reading the exported text gives back the header and, for each BOM line in
   * order, the texts of its 13 cells: the escaping loses nothing and the text
   * has exactly one record per line plus the header. The reader here is
   * `ParseCsv`, which ends records at line feeds only and takes a carriage
   * return as ordinary text. A field holding a lone carriage return is written
   * unquoted, so a reader that follows RFC 4180 and also ends records at a
   * carriage return may split that line; the round trip is not claimed for
   * such readers.
   */
  lemma CsvRoundTrip(rows: seq<Row>, render: real -> string)
    ensures rows == [] ==> CsvText(rows, render) == ""
    ensures ParseCsv(CsvText(rows, render)) == if rows == [] then [] else [Headers] + ExportRecords(rows, render)
  {
    if rows != [] {
      var body := ExportRecords(rows, render);
      var records := [Headers] + body;
      CsvTextIsLines(rows, render);
      RecordsAreWide(body);
      ParseCsvOfLines(records);
    }
  }
}
