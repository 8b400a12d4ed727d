/** The CSV text of the results table, and a reader for section 2 of RFC 4180 that gets the cells back. */
module Csv {
  import opened Wrappers

  // ----- The printer -----

  /** A value of a result: null or undefined, or something with properties that prints as a text. */
  datatype Datum = Nil | Datum(text: string, properties: map<string, Datum>)

  function Property(v: Datum, name: string): Datum {
    if v.Datum? && name in v.properties then v.properties[name] else Nil
  }

  /** What stands at the end of a path; nothing if the path leads through null or undefined. */
  function At(v: Datum, path: seq<string>): Datum
    decreases path
  {
    if path == [] then v else At(Property(v, path[0]), path[1..])
  }

  lemma {:induction false} AtNil(path: seq<string>)
    ensures At(Nil, path) == Nil
  {
    if path == [] {
    } else {
      AtNil(path[1..]);
    }
  }

  /** These are the values on the way down a path: each is the property of the one before, or null if
      there is no such property. */
  ghost predicate Leads(steps: seq<Datum>, path: seq<string>) {
    && |steps| == |path| + 1
    && forall i | 0 <= i < |path| ::
         if steps[i] != Nil && path[i] in steps[i].properties then steps[i + 1] == steps[i].properties[path[i]]
         else steps[i + 1] == Nil
  }

  lemma {:induction false} AtIsLast(steps: seq<Datum>, path: seq<string>)
    requires Leads(steps, path)
    ensures At(steps[0], path) == steps[|path|]
  {
    if path == [] {
    } else {
      assert Leads(steps[1..], path[1..]);
      AtIsLast(steps[1..], path[1..]);
    }
  }

  /** The pointer that goes down the column's path. */
  method Lookup(result: Datum, column: seq<string>) returns (ptr: Datum)
    ensures ptr == At(result, column)
  {
    var l := 0;
    ptr := result;
    while l != |column| && ptr != Nil
      invariant 0 <= l <= |column|
      invariant At(result, column) == At(ptr, column[l..])
      decreases |column| - l
    {
      ptr := Property(ptr, column[l]);
      l := l + 1;
    }
    AtNil(column[l..]);
  }

  function Doubled(s: string): string {
    if s == "" then "" else (if s[0] == '"' then "\"\"" else [s[0]]) + Doubled(s[1..])
  }

  function Join(parts: seq<string>, separator: string): string {
    if parts == [] then ""
    else if |parts| == 1 then parts[0]
    else parts[0] + separator + Join(parts[1..], separator)
  }

  const CELL_SEPARATOR := ","
  const CELL_QUOTE := "\""
  const LINE_SEPARATOR := "\r\n"

  function Cell(v: Datum): string {
    if v == Nil then "" else CELL_QUOTE + Doubled(v.text) + CELL_QUOTE
  }

  function Cells(row: seq<Datum>): seq<string> {
    seq(|row|, j requires 0 <= j < |row| => Cell(row[j]))
  }

  function Lines(rows: seq<seq<Datum>>): seq<string> {
    seq(|rows|, i requires 0 <= i < |rows| => Join(Cells(rows[i]), CELL_SEPARATOR))
  }

  function Printed(rows: seq<seq<Datum>>): string {
    Join(Lines(rows), LINE_SEPARATOR)
  }

  /** The values of the table's cells. */
  function Table(columns: seq<seq<string>>, results: seq<Datum>): seq<seq<Datum>> {
    seq(|results|, i requires 0 <= i < |results| =>
      seq(|columns|, j requires 0 <= j < |columns| => At(results[i], columns[j])))
  }

  /** _results_template. */
  function ResultsTemplate(columns: seq<seq<string>>, results: seq<Datum>): string {
    Printed(Table(columns, results))
  }

  // ----- The reader -----

  datatype Field = Unquoted(text: string) | Quoted(text: string)

  /** The text up to the closing quote, and what follows it. */
  function Inside(s: string): Option<(string, string)>
    ensures Inside(s).Some? ==> |Inside(s).value.1| < |s|
  {
    if s == "" then None
    else if s[0] != '"' then
      match Inside(s[1..])
      case None => None
      case Some((text, rest)) => Some(([s[0]] + text, rest))
    else if |s| > 1 && s[1] == '"' then
      match Inside(s[2..])
      case None => None
      case Some((text, rest)) => Some(("\"" + text, rest))
    else
      Some(("", s[1..]))
  }

  /** The characters of an unquoted field. */
  function PlainLength(s: string): (n: nat)
    ensures n <= |s|
  {
    if s == "" || s[0] in "\",\r\n" then 0 else 1 + PlainLength(s[1..])
  }

  function ReadField(s: string): Option<(Field, string)>
    ensures ReadField(s).Some? ==> |ReadField(s).value.1| <= |s|
  {
    if s != "" && s[0] == '"' then
      match Inside(s[1..])
      case None => None
      case Some((text, rest)) => Some((Quoted(text), rest))
    else
      Some((Unquoted(s[..PlainLength(s)]), s[PlainLength(s)..]))
  }

  /** record = field *(COMMA field) */
  function ReadRecord(s: string): Option<(seq<Field>, string)>
    ensures ReadRecord(s).Some? ==> |ReadRecord(s).value.1| <= |s|
    decreases |s|
  {
    match ReadField(s)
    case None => None
    case Some((field, rest)) =>
      if rest != "" && rest[0] == ',' then
        match ReadRecord(rest[1..])
        case None => None
        case Some((fields, rest')) => Some(([field] + fields, rest'))
      else
        Some(([field], rest))
  }

  /** record *(CRLF record) */
  function ReadFile(s: string): Option<seq<seq<Field>>>
    decreases |s|
  {
    match ReadRecord(s)
    case None => None
    case Some((record, rest)) =>
      if rest == "" then Some([record])
      else if LINE_SEPARATOR <= rest then
        match ReadFile(rest[2..])
        case None => None
        case Some(records) => Some([record] + records)
      else None
  }

  // ----- The round trip -----

  /** The field that the reader makes of a cell: unquoted for null only. */
  function FieldOf(v: Datum): Field {
    if v == Nil then Unquoted("") else Quoted(v.text)
  }

  function FieldsOf(row: seq<Datum>): seq<Field> {
    seq(|row|, j requires 0 <= j < |row| => FieldOf(row[j]))
  }

  function RecordsOf(rows: seq<seq<Datum>>): seq<seq<Field>> {
    seq(|rows|, i requires 0 <= i < |rows| => FieldsOf(rows[i]))
  }

  lemma {:induction false} InsideDoubled(text: string, rest: string)
    requires rest == "" || rest[0] != '"'
    ensures Inside(Doubled(text) + "\"" + rest) == Some((text, rest))
  {
    var s := Doubled(text) + "\"" + rest;
    if text == "" {
      assert s[1..] == rest;
    } else {
      var more := Doubled(text[1..]) + "\"" + rest;
      InsideDoubled(text[1..], rest);
      assert text == [text[0]] + text[1..];
      if text[0] == '"' {
        assert s == "\"\"" + more;
        assert s[2..] == more;
      } else {
        assert s == [text[0]] + more;
        assert s[1..] == more;
      }
    }
  }

  /** A cell ends where the reader ends it. */
  predicate Ends(rest: string) {
    rest == "" || rest[0] == ',' || rest[0] == '\r'
  }

  /** The reader makes this field of a text, whatever comes after it. */
  ghost predicate Reads(text: string, field: Field) {
    forall rest | Ends(rest) :: ReadField(text + rest) == Some((field, rest))
  }

  lemma {:induction false} CellRead(v: Datum)
    ensures Reads(Cell(v), FieldOf(v))
  {
    hide Inside, Doubled;
    forall rest | Ends(rest)
      ensures ReadField(Cell(v) + rest) == Some((FieldOf(v), rest))
    {
      var s := Cell(v) + rest;
      if v != Nil {
        assert s[0] == '"' && s[1..] == Doubled(v.text) + "\"" + rest;
        InsideDoubled(v.text, rest);
      } else {
        assert s == rest && PlainLength(s) == 0;
        assert s[..0] == "" && s[0..] == rest;
      }
    }
  }

  lemma {:induction false} RecordRead(texts: seq<string>, fields: seq<Field>, rest: string)
    requires |texts| == |fields| > 0 && (rest == "" || rest[0] == '\r')
    requires forall j | 0 <= j < |texts| :: Reads(texts[j], fields[j])
    ensures ReadRecord(Join(texts, CELL_SEPARATOR) + rest) == Some((fields, rest))
  {
    hide ReadField, Reads;
    var s := Join(texts, CELL_SEPARATOR) + rest;
    if |texts| == 1 {
      ReadsOne(texts[0], fields[0], rest);
      assert fields == [fields[0]];
    } else {
      var more := Join(texts[1..], CELL_SEPARATOR) + rest;
      assert s == texts[0] + ("," + more);
      ReadsOne(texts[0], fields[0], "," + more);
      assert ("," + more)[1..] == more;
      RecordRead(texts[1..], fields[1..], rest);
      assert fields == [fields[0]] + fields[1..];
    }
  }

  lemma ReadsOne(text: string, field: Field, rest: string)
    requires Reads(text, field) && Ends(rest)
    ensures ReadField(text + rest) == Some((field, rest))
  {
  }

  lemma {:induction false} RowRead(row: seq<Datum>, rest: string)
    requires row != [] && (rest == "" || rest[0] == '\r')
    ensures ReadRecord(Join(Cells(row), CELL_SEPARATOR) + rest) == Some((FieldsOf(row), rest))
  {
    hide Cell, FieldOf, Reads, ReadRecord;
    forall j | 0 <= j < |row|
      ensures Reads(Cells(row)[j], FieldsOf(row)[j])
    {
      CellRead(row[j]);
    }
    RecordRead(Cells(row), FieldsOf(row), rest);
  }

  lemma {:induction false} RowsRead(rows: seq<seq<Datum>>)
    requires rows != [] && forall i | 0 <= i < |rows| :: rows[i] != []
    ensures ReadFile(Printed(rows)) == Some(RecordsOf(rows))
  {
    hide Cell, Cells, FieldOf, ReadRecord;
    var s := Printed(rows);
    if |rows| == 1 {
      RowRead(rows[0], "");
      assert s == Join(Cells(rows[0]), CELL_SEPARATOR) + "";
      assert RecordsOf(rows) == [FieldsOf(rows[0])];
    } else {
      var more := Printed(rows[1..]);
      assert Lines(rows)[1..] == Lines(rows[1..]);
      assert s == Join(Cells(rows[0]), CELL_SEPARATOR) + (LINE_SEPARATOR + more);
      RowRead(rows[0], LINE_SEPARATOR + more);
      assert (LINE_SEPARATOR + more)[2..] == more;
      RowsRead(rows[1..]);
      assert RecordsOf(rows) == [FieldsOf(rows[0])] + RecordsOf(rows[1..]);
    }
  }

  /** Every cell of the table comes back, whatever quotes, commas and line breaks are in it, and null
      differs from the empty text: it alone is unquoted. */
  lemma RoundTrip(columns: seq<seq<string>>, results: seq<Datum>)
    requires columns != [] && results != []
    ensures var file := ReadFile(ResultsTemplate(columns, results));
            && file.Some? && |file.value| == |results|
            && forall i, j | 0 <= i < |results| && 0 <= j < |columns| ::
              && |file.value[i]| == |columns|
              && file.value[i][j] == var v := At(results[i], columns[j]);
                                     if v == Nil then Unquoted("") else Quoted(v.text)
  {
    RowsRead(Table(columns, results));
  }

  // ----- With the header -----

  function HeaderNames(columns: seq<seq<string>>): seq<string> {
    seq(|columns|, j requires 0 <= j < |columns| => Join(columns[j], "."))
  }

  /** _csv_template. */
  function CsvTemplate(columns: seq<seq<string>>, results: seq<Datum>): string {
    Join(HeaderNames(columns), CELL_SEPARATOR) + LINE_SEPARATOR + ResultsTemplate(columns, results)
  }

  function HeaderRecord(columns: seq<seq<string>>): seq<Field> {
    seq(|columns|, j requires 0 <= j < |columns| => Unquoted(Join(columns[j], ".")))
  }

  /** No quote, comma or line break. */
  predicate PlainText(s: string) {
    forall i | 0 <= i < |s| :: s[i] !in "\",\r\n"
  }

  lemma {:induction false} PlainPrefix(s: string)
    ensures PlainText(s[..PlainLength(s)])
  {
    if s == "" || s[0] in "\",\r\n" {
    } else {
      PlainPrefix(s[1..]);
      assert s[..PlainLength(s)] == [s[0]] + s[1..][..PlainLength(s[1..])];
    }
  }

  lemma {:induction false} PlainWhole(s: string, rest: string)
    requires PlainText(s) && Ends(rest)
    ensures PlainLength(s + rest) == |s|
  {
    if s == "" {
      assert s + rest == rest;
    } else {
      PlainWhole(s[1..], rest);
      assert (s + rest)[1..] == s[1..] + rest;
    }
  }

  lemma {:induction false} PlainRead(s: string)
    requires PlainText(s)
    ensures Reads(s, Unquoted(s))
  {
    hide PlainLength;
    forall rest | Ends(rest)
      ensures ReadField(s + rest) == Some((Unquoted(s), rest))
    {
      PlainWhole(s, rest);
      assert (s + rest)[..|s|] == s && (s + rest)[|s|..] == rest;
      assert s != "" ==> (s + rest)[0] == s[0];
    }
  }

  /** The reader never finds a special character in an unquoted field. */
  lemma {:induction false} UnquotedArePlain(s: string, j: nat)
    requires ReadRecord(s).Some? && j < |ReadRecord(s).value.0| && ReadRecord(s).value.0[j].Unquoted?
    ensures PlainText(ReadRecord(s).value.0[j].text)
    decreases j
  {
    hide Inside, PlainLength, PlainText;
    PlainPrefix(s);
    if j == 0 {
    } else {
      UnquotedArePlain(ReadField(s).value.1[1..], j - 1);
    }
  }

  /** The header's names stand in the text as they are: they come back, with all the cells, exactly
      if no name holds a quote, a comma or a line break. */
  lemma HeaderRoundTrip(columns: seq<seq<string>>, results: seq<Datum>)
    requires columns != [] && results != []
    ensures ReadFile(CsvTemplate(columns, results))
            == Some([HeaderRecord(columns)] + RecordsOf(Table(columns, results)))
            <==> forall j | 0 <= j < |columns| :: PlainText(Join(columns[j], "."))
  {
    hide ReadRecord, PlainText, Reads, Printed, RecordsOf, Join;
    var names, header := HeaderNames(columns), HeaderRecord(columns);
    var body := ResultsTemplate(columns, results);
    var s := CsvTemplate(columns, results);
    RowsRead(Table(columns, results));
    if forall j | 0 <= j < |columns| :: PlainText(Join(columns[j], ".")) {
      forall j | 0 <= j < |columns|
        ensures Reads(names[j], header[j])
      {
        PlainRead(names[j]);
      }
      assert s == Join(names, CELL_SEPARATOR) + (LINE_SEPARATOR + body);
      RecordRead(names, header, LINE_SEPARATOR + body);
      assert (LINE_SEPARATOR + body)[2..] == body;
    } else if ReadFile(s) == Some([header] + RecordsOf(Table(columns, results))) {
      assert ReadFile(s).value[0] == header;
      assert ReadRecord(s).Some? && ReadRecord(s).value.0 == header;
      forall j | 0 <= j < |columns|
        ensures PlainText(Join(columns[j], "."))
      {
        UnquotedArePlain(s, j);
      }
    }
  }

  // ----- A line break at the end -----

  /** RFC 4180 lets a line break follow the last record: a reader that takes one off. */
  function ReadWithFinalBreak(s: string): Option<seq<seq<Field>>> {
    if |s| >= 2 && s[|s| - 2..] == LINE_SEPARATOR then ReadFile(s[..|s| - 2]) else ReadFile(s)
  }

  lemma {:induction false} LineEnds(row: seq<Datum>)
    requires row != []
    ensures var line := Join(Cells(row), CELL_SEPARATOR);
            if row == [Nil] then line == "" else line != "" && line[|line| - 1] in "\","
  {
    if |row| <= 1 {
    } else {
      assert Cells(row)[1..] == Cells(row[1..]);
      LineEnds(row[1..]);
    }
  }

  lemma {:induction false} LastLine(rows: seq<seq<Datum>>)
    requires |rows| > 1
    ensures var k := |rows| - 1;
            Printed(rows) == Printed(rows[..k]) + LINE_SEPARATOR + Join(Cells(rows[k]), CELL_SEPARATOR)
  {
    hide Cells;
    var k := |rows| - 1;
    assert Lines(rows)[1..] == Lines(rows[1..]);
    if |rows| > 2 {
      LastLine(rows[1..]);
      assert rows[1..][..k - 1] == rows[..k][1..];
      assert Lines(rows[..k])[1..] == Lines(rows[..k][1..]);
    } else {
      OneLine(rows[..k]);
      OneLine(rows[1..]);
      assert Lines(rows)[0] == Join(Cells(rows[0]), CELL_SEPARATOR);
    }
  }

  /** Such a reader gets all the cells too, unless null in a single column ends several rows: then it
      loses the last one. */
  lemma FinalBreak(columns: seq<seq<string>>, results: seq<Datum>)
    requires columns != [] && results != []
    ensures ReadWithFinalBreak(ResultsTemplate(columns, results)) == Some(RecordsOf(Table(columns, results)))
            <==> !(|results| > 1 && |columns| == 1 && At(results[|results| - 1], columns[0]) == Nil)
  {
    hide ReadFile, Cells, Join, RecordsOf;
    var rows := Table(columns, results);
    var s, k := Printed(rows), |rows| - 1;
    RowsRead(rows);
    LineEnds(rows[k]);
    var line := Join(Cells(rows[k]), CELL_SEPARATOR);
    assert |columns| == 1 ==> rows[k] == [At(results[k], columns[0])];
    if |rows| > 1 {
      LastLine(rows);
      if rows[k] == [Nil] {
        RowsRead(rows[..k]);
        assert s[..|s| - 2] == Printed(rows[..k]) && s[|s| - 2..] == LINE_SEPARATOR;
        Fewer(rows[..k], rows);
      } else {
        assert s[|s| - 1] == line[|line| - 1] && LINE_SEPARATOR[1] == '\n';
      }
    } else {
      OneLine(rows);
      assert LINE_SEPARATOR[1] == '\n';
    }
  }

  lemma OneLine(rows: seq<seq<Datum>>)
    requires |rows| == 1
    ensures Printed(rows) == Join(Cells(rows[0]), CELL_SEPARATOR)
  {
  }

  lemma Fewer(rows: seq<seq<Datum>>, rows': seq<seq<Datum>>)
    requires |rows| != |rows'|
    ensures RecordsOf(rows) != RecordsOf(rows')
  {
    assert |RecordsOf(rows)| == |rows| && |RecordsOf(rows')| == |rows'|;
  }
}
