/**
 * The CSV serialiser: fields quoted as in rules 6 and 7 of section 2 of RFC 4180
 * (a field holding a comma, a double quote, CR or LF is enclosed in double quotes, and a
 * double quote inside it is doubled), fields joined by commas and lines by a single LF.
 * A reader for that format is the serialiser's inverse.
 */
module Csv {

  import opened Wrappers
  import opened Flattener
  import opened Columns
  import opened Cells
  import Json
  import StringOrder

  /** The field contains a comma, a double quote, LF or CR and so must be quoted. */
  predicate NeedsQuoting(s: string) {
    ',' in s || '"' in s || '\n' in s || '\r' in s
  }

  /** `s.replace(/"/g, '""')`: every double quote doubled, every other character kept. */
  function DoubleQuotes(s: string): string
  {
    if s == [] then []
    else
      (if s[0] == '"' then "\"\"" else [s[0]]) + DoubleQuotes(s[1..])
  }

  /**
   * `escapeCSVField`: null or undefined give the empty field; a field that needs quoting
   * is quoted with its double quotes doubled; any other field is returned unchanged.
   */
  function EscapeCsvField(field: Option<string>): (r: string)
    ensures field.None? ==> r == ""
    ensures field.Some? && !NeedsQuoting(field.value) ==> r == field.value
    ensures field.Some? && NeedsQuoting(field.value) ==>
      |r| >= 2 && r[0] == '"' && r[|r| - 1] == '"' && r[1..|r| - 1] == DoubleQuotes(field.value)
  {
    match field
    case None => ""
    case Some(s) => if NeedsQuoting(s) then "\"" + DoubleQuotes(s) + "\"" else s
  }

  /** `xs.join(sep)`: the empty string for no elements. */
  function JoinWith(sep: char, xs: seq<string>): (r: string)
    ensures xs == [] ==> r == ""
    ensures |xs| == 1 ==> r == xs[0]
  {
    if |xs| == 0 then "" else if |xs| == 1 then xs[0] else xs[0] + [sep] + JoinWith(sep, xs[1..])
  }

  /** `fields.map(escapeCSVField)`. */
  function EscapeAll(fields: seq<string>): (r: seq<string>)
    ensures |r| == |fields|
  {
    if fields == [] then [] else [EscapeCsvField(Some(fields[0]))] + EscapeAll(fields[1..])
  }

  /** One CSV line: each field escaped, then comma-joined. */
  function Line(fields: seq<string>): string
  {
    JoinWith(',', EscapeAll(fields))
  }

  /** One line per table row. */
  function Lines(table: seq<seq<string>>): (r: seq<string>)
    ensures |r| == |table|
    ensures forall i :: 0 <= i < |table| ==> r[i] == Line(table[i])
  {
    if table == [] then [] else [Line(table[0])] + Lines(table[1..])
  }

  /** The texts of one record's cells, in column order. */
  function RowTexts(row: Record, keys: seq<string>): (texts: seq<string>)
    ensures |texts| == |keys|
    ensures forall c :: 0 <= c < |keys| ==> texts[c] == CellText(row, keys[c])
  {
    seq(|keys|, c requires 0 <= c < |keys| => CellText(row, keys[c]))
  }

  /**
   * `convertToCSV`: nothing for no records; otherwise the escaped header line followed
   * by one line per record, LF-joined.
   */
  function ConvertToCsv(dataArray: seq<Record>): (csv: string)
    ensures dataArray == [] ==> csv == ""
  {
    if |dataArray| == 0 then ""
    else
      var allKeys := AllKeys(dataArray);
      var headers := Line(allKeys);
      var rows := seq(|dataArray|, r requires 0 <= r < |dataArray| => Line(RowTexts(dataArray[r], allKeys)));
      JoinWith('\n', [headers] + rows)
  }

  /** The cell texts of each record, in record order. */
  function TextRows(dataArray: seq<Record>, keys: seq<string>): (rows: seq<seq<string>>)
    ensures |rows| == |dataArray|
    ensures forall r :: 0 <= r < |dataArray| ==> rows[r] == RowTexts(dataArray[r], keys)
  {
    if dataArray == [] then [] else [RowTexts(dataArray[0], keys)] + TextRows(dataArray[1..], keys)
  }

  /**
   * What a CSV file of the records holds: the columns as header, then the texts of
   * each record's cells in column order.
   */
  function Table(dataArray: seq<Record>): (table: seq<seq<string>>)
    ensures |table| == |dataArray| + 1
    ensures table[0] == AllKeys(dataArray)
    ensures table[1..] == TextRows(dataArray, AllKeys(dataArray))
  {
    [AllKeys(dataArray)] + TextRows(dataArray, AllKeys(dataArray))
  }

  // ---------------------------------------------------------------------------
  // Reading CSV back

  /** `text` put in front of the text a reader returned. */
  function PrependText(text: string, r: Option<(string, string)>): Option<(string, string)>
  {
    if r.None? then None else Some((text + r.value.0, r.value.1))
  }

  /** The rest of a quoted field after its opening quote: its text and what follows the closing quote. */
  function ReadQuoted(s: string): (r: Option<(string, string)>)
    ensures r.Some? ==> |r.value.1| < |s|
    decreases |s|
  {
    if s == [] then None
    else if s[0] == '"' then
      if |s| >= 2 && s[1] == '"' then PrependText("\"", ReadQuoted(s[2..])) else Some(("", s[1..]))
    else PrependText([s[0]], ReadQuoted(s[1..]))
  }

  /** An unquoted field: everything up to the next comma or LF. */
  function ReadBare(s: string): (r: (string, string))
    ensures r.0 + r.1 == s
    decreases |s|
  {
    if s == [] || s[0] == ',' || s[0] == '\n' then ("", s)
    else
      var (text, rest) := ReadBare(s[1..]);
      ([s[0]] + text, rest)
  }

  function ReadField(s: string): (r: Option<(string, string)>)
    ensures r.Some? ==> |r.value.1| <= |s|
  {
    if |s| > 0 && s[0] == '"' then ReadQuoted(s[1..]) else Some(ReadBare(s))
  }

  /** One record: comma-separated fields up to an LF or the end; `None` if it is malformed. */
  function ParseRecord(s: string): (r: Option<(seq<string>, string)>)
    ensures r.Some? ==> |r.value.0| > 0 && |r.value.1| <= |s|
    ensures r.Some? ==> r.value.1 == [] || r.value.1[0] == '\n'
    decreases |s|
  {
    match ReadField(s)
    case None => None
    case Some((field, rest)) =>
      if rest == [] || rest[0] == '\n' then Some(([field], rest))
      else if rest[0] == ',' then
        match ParseRecord(rest[1..])
        case None => None
        case Some((fields, after)) => Some(([field] + fields, after))
      else None
  }

  /** A whole document: LF-separated records. */
  function ParseDocument(s: string): Option<seq<seq<string>>>
    decreases |s|
  {
    match ParseRecord(s)
    case None => None
    case Some((fields, rest)) =>
      if rest == [] then Some([fields])
      else
        match ParseDocument(rest[1..])
        case None => None
        case Some(records) => Some([fields] + records)
  }

  // ---------------------------------------------------------------------------
  // Lemmas

  lemma {:induction false} ReadQuotedDoubled(s: string, rest: string)
    requires rest == [] || rest[0] != '"'
    ensures ReadQuoted(DoubleQuotes(s) + "\"" + rest) == Some((s, rest))
    decreases |s|
  {
    var input := DoubleQuotes(s) + "\"" + rest;
    if s == [] {
      assert input == ['"'] + rest;
    } else {
      var tail := DoubleQuotes(s[1..]) + "\"" + rest;
      ReadQuotedDoubled(s[1..], rest);
      if s[0] == '"' {
        assert input == ['"', '"'] + tail;
        assert input[2..] == tail;
      } else {
        assert input == [s[0]] + tail;
        assert input[1..] == tail;
      }
      assert s == [s[0]] + s[1..];
    }
  }

  lemma {:induction false} ReadBareUnquoted(s: string, rest: string)
    requires ',' !in s && '\n' !in s
    requires rest == [] || rest[0] == ',' || rest[0] == '\n'
    ensures ReadBare(s + rest) == (s, rest)
    decreases |s|
  {
    if s != [] {
      assert (s + rest)[0] == s[0] && (s + rest)[1..] == s[1..] + rest;
      ReadBareUnquoted(s[1..], rest);
      assert s == [s[0]] + s[1..];
    } else {
      assert s + rest == rest;
    }
  }

  /** An escaped field followed by a comma, an LF or nothing reads back as the original text. */
  lemma ReadFieldEscaped(s: string, rest: string)
    requires rest == [] || rest[0] == ',' || rest[0] == '\n'
    ensures ReadField(EscapeCsvField(Some(s)) + rest) == Some((s, rest))
  {
    var e := EscapeCsvField(Some(s));
    if NeedsQuoting(s) {
      assert e + rest == "\"" + (DoubleQuotes(s) + "\"" + rest);
      assert (e + rest)[1..] == DoubleQuotes(s) + "\"" + rest;
      ReadQuotedDoubled(s, rest);
    } else {
      ReadBareUnquoted(s, rest);
      if s != [] { assert (s + rest)[0] == s[0]; } else { assert s + rest == rest; }
    }
  }

  /** Unquoting and undoubling an escaped field recovers the original text. */
  lemma EscapeCsvFieldRoundTrip(s: string)
    ensures ReadField(EscapeCsvField(Some(s))) == Some((s, ""))
  {
    ReadFieldEscaped(s, "");
    assert EscapeCsvField(Some(s)) + "" == EscapeCsvField(Some(s));
  }

  lemma {:induction false} ParseRecordLine(fields: seq<string>, rest: string)
    requires |fields| > 0
    requires rest == [] || rest[0] == '\n'
    ensures ParseRecord(Line(fields) + rest) == Some((fields, rest))
    decreases |fields|
  {
    var first := EscapeCsvField(Some(fields[0]));
    if |fields| == 1 {
      ReadFieldEscaped(fields[0], rest);
      assert fields == [fields[0]];
    } else {
      assert EscapeAll(fields)[1..] == EscapeAll(fields[1..]);
      assert Line(fields) == first + [','] + Line(fields[1..]);
      var tail := Line(fields[1..]) + rest;
      assert Line(fields) + rest == first + ("," + tail);
      ReadFieldEscaped(fields[0], "," + tail);
      assert ("," + tail)[1..] == tail;
      ParseRecordLine(fields[1..], rest);
      assert fields == [fields[0]] + fields[1..];
    }
  }

  /** The LF-joined lines of a table whose every line has at least one field read back as the table. */
  lemma {:induction false} ParseDocumentLines(table: seq<seq<string>>)
    requires |table| > 0
    requires forall i :: 0 <= i < |table| ==> |table[i]| > 0
    ensures ParseDocument(JoinWith('\n', Lines(table))) == Some(table)
    decreases |table|
  {
    if |table| == 1 {
      ParseRecordLine(table[0], "");
      assert Line(table[0]) + "" == Line(table[0]);
      assert Lines(table) == [Line(table[0])] && table == [table[0]];
    } else {
      var tail := JoinWith('\n', Lines(table[1..]));
      assert Lines(table)[1..] == Lines(table[1..]);
      assert JoinWith('\n', Lines(table)) == Line(table[0]) + ("\n" + tail);
      ParseRecordLine(table[0], "\n" + tail);
      assert ("\n" + tail)[1..] == tail;
      ParseDocumentLines(table[1..]);
      assert table == [table[0]] + table[1..];
    }
  }

  /**
   * The CSV shape: for records with at least one column, reading the CSV back gives the
   * header (the columns) and, per record in order, exactly one field per column holding
   * that cell's text.
   */
  lemma ConvertToCsvReadsBack(dataArray: seq<Record>)
    requires |dataArray| > 0 && |AllKeys(dataArray)| > 0
    ensures ParseDocument(ConvertToCsv(dataArray)) == Some(Table(dataArray))
  {
    var table := Table(dataArray);
    ConvertToCsvLines(dataArray);
    forall i | 0 <= i < |table| ensures |table[i]| > 0 {
      if i > 0 {
        assert table[i] == table[1..][i - 1];
      }
    }
    ParseDocumentLines(table);
  }

  /** `convertToCSV` writes the table's lines, LF-joined. */
  lemma ConvertToCsvLines(dataArray: seq<Record>)
    requires |dataArray| > 0
    ensures ConvertToCsv(dataArray) == JoinWith('\n', Lines(Table(dataArray)))
  {
    var allKeys := AllKeys(dataArray);
    var table := Table(dataArray);
    var rows := seq(|dataArray|, r requires 0 <= r < |dataArray| => Line(RowTexts(dataArray[r], allKeys)));
    var lines := [Line(allKeys)] + rows;
    assert ConvertToCsv(dataArray) == JoinWith('\n', lines);
    forall i | 0 <= i < |table| ensures lines[i] == Lines(table)[i] {
      if i > 0 {
        assert table[i] == table[1..][i - 1];
      }
    }
    assert Lines(table) == lines;
  }

  /** For any parsed input that yields at least one record, its CSV reads back as its table. */
  lemma ParsedCsvReadsBack(data: Json.Json)
    requires !data.Arr? || |data.elems| > 0
    ensures ParseDocument(ConvertToCsv(ParseAndFlatten(data))) == Some(Table(ParseAndFlatten(data)))
  {
    var rows := ParseAndFlatten(data);
    ParseAndFlattenRows(data);
    AllKeysNonEmpty(rows);
    ConvertToCsvReadsBack(rows);
  }

  /** `[{"a":1,"b":{"c":2}}]` becomes the record `{a: 1, "b.c": 2}` and the CSV `a,b.c` LF `1,2`. */
  lemma EndToEndExample()
    ensures ConvertToCsv(ParseAndFlatten(Json.Arr([Json.Obj([("a", Json.Num(1)), ("b", Json.Obj([("c", Json.Num(2))]))])])))
      == "a,b.c\n1,2"
  {
    ExampleRecord();
    ExampleCsv(map["a" := Json.Num(1), "b.c" := Json.Num(2)]);
  }

  lemma ExampleCsv(row: Record)
    requires row == map["a" := Json.Num(1), "b.c" := Json.Num(2)]
    ensures ConvertToCsv([row]) == "a,b.c\n1,2"
  {
    ExampleTable(row);
    ExampleCells(row);
    ExampleTableCsv([row]);
    ExampleJoin();
  }

  /** A one-record conversion is its header line, a newline and its value line. */
  lemma SingleRecordCsv(dataArray: seq<Record>, keys: seq<string>, texts: seq<string>)
    requires |dataArray| == 1 && Table(dataArray) == [keys, texts]
    ensures ConvertToCsv(dataArray) == Line(keys) + "\n" + Line(texts)
  {
    ConvertToCsvLines(dataArray);
    assert Lines([keys, texts]) == [Line(keys), Line(texts)] by {
      assert [keys, texts][1..] == [texts];
    }
  }

  lemma ExampleTableCsv(dataArray: seq<Record>)
    requires |dataArray| == 1 && Table(dataArray) == [["a", "b.c"], ["1", "2"]]
    ensures ConvertToCsv(dataArray) == "a,b.c" + "\n" + "1,2"
  {
    SingleRecordCsv(dataArray, ["a", "b.c"], ["1", "2"]);
    ExampleHeader();
    ExampleValues();
  }

  lemma ExampleJoin()
    ensures "a,b.c" + "\n" + "1,2" == "a,b.c\n1,2"
  {
  }

  lemma ExampleTable(row: Record)
    requires row == map["a" := Json.Num(1), "b.c" := Json.Num(2)]
    ensures Table([row]) == [["a", "b.c"], RowTexts(row, ["a", "b.c"])]
  {
    ExampleColumns(row);
    assert TextRows([row], ["a", "b.c"]) == [RowTexts(row, ["a", "b.c"])];
  }

  lemma ExampleHeader()
    ensures Line(["a", "b.c"]) == "a,b.c"
  {
    assert EscapeAll(["a", "b.c"]) == ["a", "b.c"];
  }

  lemma ExampleCells(row: Record)
    requires row == map["a" := Json.Num(1), "b.c" := Json.Num(2)]
    ensures RowTexts(row, ["a", "b.c"]) == ["1", "2"]
  {
    assert CellText(row, "a") == "1" && CellText(row, "b.c") == "2";
  }

  lemma ExampleValues()
    ensures Line(["1", "2"]) == "1,2"
  {
    assert EscapeAll(["1", "2"]) == ["1", "2"];
  }

  lemma ExampleRecord()
    ensures ParseAndFlatten(Json.Arr([Json.Obj([("a", Json.Num(1)), ("b", Json.Obj([("c", Json.Num(2))]))])]))
      == [map["a" := Json.Num(1), "b.c" := Json.Num(2)]]
  {
    var inner := [("c", Json.Num(2))];
    var members := [("a", Json.Num(1)), ("b", Json.Obj(inner))];
    var first := map["a" := Json.Num(1)];
    var row := map["a" := Json.Num(1), "b.c" := Json.Num(2)];
    assert MemberKey("", "a") == "a" && MemberKey("", "b") == "b" && MemberKey("b", "c") == "b.c";
    calc {
      Flatten(Json.Obj(inner), "b", first);
      FlattenMembers(inner, "b", 0, first);
      FlattenMembers(inner, "b", 1, row);
    }
    calc {
      FlattenRoot(Json.Obj(members));
      FlattenMembers(members, "", 0, map[]);
      FlattenMembers(members, "", 1, first);
      FlattenMembers(members, "", 2, row);
    }
  }

  lemma ExampleColumns(row: Record)
    requires row == map["a" := Json.Num(1), "b.c" := Json.Num(2)]
    ensures AllKeys([row]) == ["a", "b.c"]
  {
    assert KeyUnion([row]) == {"a", "b.c"} by {
      assert [row][..0] == [];
    }
    assert StringOrder.Less("a", "b.c");
    StringOrder.SortedKeysUnique(["a", "b.c"], {"a", "b.c"});
  }
}
