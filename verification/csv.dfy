/** The CSV export of the active rows (`handleExport` in App.tsx).

    The header line is the column labels joined by commas, unquoted. Each row
    is one line of fields, each field wrapped in double quotes with every
    embedded double quote doubled, as in section 2, rule 7 of RFC 4180. Lines
    are joined by a bare line feed, not the CRLF of RFC 4180, with no line
    break after the last row.

    The module also defines a reader for exactly this dialect and proves
    that reading an export gives back the header labels and every cell. */
module Csv {
  import opened Basics
  import opened Types

  // ---------------------------------------------------------------------------
  // Writing
  // ---------------------------------------------------------------------------

  /** `value.replace(/"/g, '""')`: the value with every double quote doubled.
      In the result, quotes only ever occur in adjacent pairs. */
  function Escape(v: string): (e: string)
    ensures |e| == |v| + Occurrences(v, '"')
    ensures QuotesPaired(e)
  {
    if |v| == 0 then ""
    else
      var rest := Escape(v[1..]);
      if v[0] == '"' then
        var e := "\"\"" + rest;
        assert e[2..] == rest;
        e
      else
        var e := [v[0]] + rest;
        assert e[1..] == rest;
        e
  }

  /** Every double quote in `s` is immediately followed by a second one, and
      the pairs do not overlap: the text can sit inside a quoted field. */
  predicate QuotesPaired(s: string)
    decreases |s|
  {
    if |s| == 0 then true
    else if s[0] == '"' then |s| >= 2 && s[1] == '"' && QuotesPaired(s[2..])
    else QuotesPaired(s[1..])
  }

  /** A quoted field: `"` + escaped value + `"`. */
  function Quote(v: string): string {
    "\"" + Escape(v) + "\""
  }

  function QuoteAll(values: seq<string>): (fields: seq<string>)
    ensures |fields| == |values|
    ensures forall j :: 0 <= j < |values| ==> fields[j] == Quote(values[j])
  {
    seq(|values|, j requires 0 <= j < |values| => Quote(values[j]))
  }

  /** The values an item shows in the given columns, in column order. */
  function Cells(item: ExtractedItem, columns: seq<ColumnDefinition>): (cells: seq<string>)
    ensures |cells| == |columns|
    ensures forall j :: 0 <= j < |columns| ==> cells[j] == CellValue(item, columns[j].key)
  {
    seq(|columns|, j requires 0 <= j < |columns| => CellValue(item, columns[j].key))
  }

  /** The table of cell values of a list of items. */
  function Grid(items: seq<ExtractedItem>, columns: seq<ColumnDefinition>): (grid: seq<seq<string>>)
    ensures |grid| == |items|
    ensures forall i :: 0 <= i < |items| ==> grid[i] == Cells(items[i], columns)
  {
    seq(|items|, i requires 0 <= i < |items| => Cells(items[i], columns))
  }

  function HeaderLine(columns: seq<ColumnDefinition>): string {
    Join(ColumnLabels(columns), ",")
  }

  function RowLine(cells: seq<string>): string {
    Join(QuoteAll(cells), ",")
  }

  function RowLines(grid: seq<seq<string>>): (lines: seq<string>)
    ensures |lines| == |grid|
    ensures forall i :: 0 <= i < |grid| ==> lines[i] == RowLine(grid[i])
  {
    seq(|grid|, i requires 0 <= i < |grid| => RowLine(grid[i]))
  }

  /** The CSV text of a non-empty export. */
  function Content(items: seq<ExtractedItem>, columns: seq<ColumnDefinition>): string {
    Join([HeaderLine(columns)] + RowLines(Grid(items, columns)), "\n")
  }

  /** The export action: nothing at all for an empty list, otherwise the CSV
      text. The header comes first, then one line per item in item order. */
  function Export(items: seq<ExtractedItem>, columns: seq<ColumnDefinition>): (r: Option<string>)
    ensures r.None? <==> |items| == 0
    ensures r.Some? ==> StartsWith(r.value, HeaderLine(columns) + "\n")
  {
    if |items| == 0 then None
    else
      var text := Content(items, columns);
      JoinCons(HeaderLine(columns), RowLines(Grid(items, columns)), "\n");
      assert text == HeaderLine(columns) + "\n" + Join(RowLines(Grid(items, columns)), "\n");
      Some(text)
  }

  // ---------------------------------------------------------------------------
  // Reading
  // ---------------------------------------------------------------------------

  /** Reads a quoted field from just after its opening quote: the value with
      doubled quotes collapsed, and the text after the closing quote. */
  function ReadQuoted(s: string): (r: Option<(string, string)>)
    ensures r.Some? ==> |r.value.1| < |s|
    decreases |s|
  {
    if |s| == 0 then None
    else if s[0] == '"' then
      if |s| > 1 && s[1] == '"' then
        match ReadQuoted(s[2..])
        case None => None
        case Some((v, rest)) => Some(("\"" + v, rest))
      else Some(("", s[1..]))
    else
      match ReadQuoted(s[1..])
      case None => None
      case Some((v, rest)) => Some(([s[0]] + v, rest))
  }

  function ReadField(s: string): (r: Option<(string, string)>)
    ensures r.Some? ==> |r.value.1| < |s|
  {
    if |s| > 0 && s[0] == '"' then ReadQuoted(s[1..]) else None
  }

  /** The value of a single quoted field: strip the outer quotes and collapse
      each `""` to `"`. */
  function Unquote(field: string): Option<string> {
    match ReadField(field)
    case Some((v, rest)) => if |rest| == 0 then Some(v) else None
    case None => None
  }

  /** Reads comma-separated quoted fields up to the end of the line: the
      values and the text from the line break on. */
  function ReadRecord(s: string): (r: Option<(seq<string>, string)>)
    ensures r.Some? ==> |r.value.1| < |s| && |r.value.0| > 0
    decreases |s|
  {
    match ReadField(s)
    case None => None
    case Some((v, rest)) =>
      if |rest| > 0 && rest[0] == ',' then
        match ReadRecord(rest[1..])
        case None => None
        case Some((vs, tail)) => Some(([v] + vs, tail))
      else Some(([v], rest))
  }

  /** Reads line-separated records to the end of the text. */
  function ReadRecords(s: string): Option<seq<seq<string>>>
    decreases |s|
  {
    match ReadRecord(s)
    case None => None
    case Some((fields, rest)) =>
      if |rest| == 0 then Some([fields])
      else if rest[0] == '\n' then
        match ReadRecords(rest[1..])
        case None => None
        case Some(more) => Some([fields] + more)
      else None
  }

  /** The text up to the first line break, and the text after it. */
  function BreakLine(s: string): (r: Option<(string, string)>)
    decreases |s|
  {
    if |s| == 0 then None
    else if s[0] == '\n' then Some(("", s[1..]))
    else
      match BreakLine(s[1..])
      case None => None
      case Some((line, rest)) => Some(([s[0]] + line, rest))
  }

  datatype Table = Table(header: seq<string>, records: seq<seq<string>>)

  /** Reads an export: an unquoted header line of comma-separated labels,
      then quoted records. */
  function ReadCsv(text: string): Option<Table> {
    match BreakLine(text)
    case None => None
    case Some((line, rest)) =>
      match ReadRecords(rest)
      case None => None
      case Some(records) => Some(Table(Split(line, ','), records))
  }

  // ---------------------------------------------------------------------------
  // Round trips
  // ---------------------------------------------------------------------------

  /** A quoted field reads back as the value, whatever follows it (as long
      as the following text does not itself start with a quote). */
  lemma {:induction false} ReadEscaped(v: string, rest: string)
    requires |rest| == 0 || rest[0] != '"'
    ensures ReadQuoted(Escape(v) + "\"" + rest) == Some((v, rest))
  {
    var s := Escape(v) + "\"" + rest;
    if |v| == 0 {
      assert s == "\"" + rest;
      assert s[1..] == rest;
    } else {
      ReadEscaped(v[1..], rest);
      var tail := Escape(v[1..]) + "\"" + rest;
      if v[0] == '"' {
        assert s == "\"\"" + tail;
        assert s[2..] == tail;
        assert "\"" + v[1..] == v;
      } else {
        assert s == [v[0]] + tail;
        assert s[1..] == tail;
        assert [v[0]] + v[1..] == v;
      }
    }
  }

  /** Stripping the quotes of a written field and collapsing `""` recovers
      the value. */
  lemma UnquoteQuote(v: string)
    ensures Unquote(Quote(v)) == Some(v)
  {
    ReadEscaped(v, "");
    assert Quote(v)[1..] == Escape(v) + "\"" + "";
  }

  /** A written field reads back as its value, leaving what follows it. */
  lemma ReadQuotedField(v: string, after: string)
    requires |after| == 0 || after[0] != '"'
    ensures ReadField(Quote(v) + after) == Some((v, after))
  {
    var s := Quote(v) + after;
    assert s[1..] == Escape(v) + "\"" + after;
    ReadEscaped(v, after);
  }

  /** A row of several cells is the first field, a comma and the rest. */
  lemma RowLineCons(cells: seq<string>)
    requires |cells| > 1
    ensures RowLine(cells) == Quote(cells[0]) + "," + RowLine(cells[1..])
  {
    assert QuoteAll(cells)[1..] == QuoteAll(cells[1..]);
  }

  /** A written row reads back as its cells, leaving the line break (or the
      end of the text) that follows it. */
  lemma {:induction false} ReadRow(cells: seq<string>, rest: string)
    requires |cells| > 0
    requires |rest| == 0 || rest[0] == '\n'
    ensures ReadRecord(RowLine(cells) + rest) == Some((cells, rest))
  {
    var c := cells[0];
    if |cells| == 1 {
      assert RowLine(cells) == Quote(c);
      ReadQuotedField(c, rest);
      assert [c] == cells;
    } else {
      var more := RowLine(cells[1..]);
      RowLineCons(cells);
      var after := "," + (more + rest);
      assert RowLine(cells) + rest == Quote(c) + after;
      ReadQuotedField(c, after);
      assert after[1..] == more + rest;
      ReadRow(cells[1..], rest);
      assert [c] + cells[1..] == cells;
    }
  }

  /** Written rows joined by line breaks read back as the rows. */
  lemma {:induction false} ReadRows(grid: seq<seq<string>>)
    requires |grid| > 0
    requires forall i :: 0 <= i < |grid| ==> |grid[i]| > 0
    ensures ReadRecords(Join(RowLines(grid), "\n")) == Some(grid)
  {
    var lines := RowLines(grid);
    if |grid| == 1 {
      ReadRow(grid[0], "");
      assert RowLine(grid[0]) + "" == RowLine(grid[0]);
      assert Join(lines, "\n") == RowLine(grid[0]);
      assert [grid[0]] == grid;
    } else {
      var after := "\n" + Join(lines[1..], "\n");
      assert Join(lines, "\n") == RowLine(grid[0]) + after;
      ReadRow(grid[0], after);
      assert after[1..] == Join(lines[1..], "\n");
      assert lines[1..] == RowLines(grid[1..]);
      ReadRows(grid[1..]);
      assert [grid[0]] + grid[1..] == grid;
    }
  }

  lemma {:induction false} BreakLineAt(line: string, rest: string)
    requires '\n' !in line
    ensures BreakLine(line + "\n" + rest) == Some((line, rest))
  {
    if |line| == 0 {
      assert line + "\n" + rest == "\n" + rest;
    } else {
      assert (line + "\n" + rest)[1..] == line[1..] + "\n" + rest;
      assert '\n' !in line[1..];
      BreakLineAt(line[1..], rest);
      assert [line[0]] + line[1..] == line;
    }
  }

  /** Reading an export gives back the column labels and, for every item in
      order, its value in every column (with a missing key read as ""). The
      labels must be free of commas and line breaks, since the header is
      written unquoted. */
  lemma ExportRoundTrip(items: seq<ExtractedItem>, columns: seq<ColumnDefinition>)
    requires |items| > 0 && |columns| > 0
    requires forall c :: c in columns ==> ',' !in c.header && '\n' !in c.header
    ensures Export(items, columns).Some?
    ensures ReadCsv(Export(items, columns).value) == Some(Table(ColumnLabels(columns), Grid(items, columns)))
  {
    var labels := ColumnLabels(columns);
    var grid := Grid(items, columns);
    var header := HeaderLine(columns);
    assert forall i :: 0 <= i < |labels| ==> ',' !in labels[i] && '\n' !in labels[i] by {
      forall i | 0 <= i < |labels| ensures ',' !in labels[i] && '\n' !in labels[i] {
        assert columns[i] in columns;
      }
    }
    JoinAvoids(labels, ",", '\n');
    SplitJoin(labels, ',');
    var body := Join(RowLines(grid), "\n");
    JoinCons(header, RowLines(grid), "\n");
    assert Content(items, columns) == header + "\n" + body;
    BreakLineAt(header, body);
    ReadRows(grid);
  }

  /** When no label and no value contains a line break, the export is
      exactly one line for the header and one line per item. */
  lemma ExportLines(items: seq<ExtractedItem>, columns: seq<ColumnDefinition>)
    requires |items| > 0
    requires forall c :: c in columns ==> '\n' !in c.header
    requires forall i, j :: 0 <= i < |items| && 0 <= j < |columns| ==> '\n' !in CellValue(items[i], columns[j].key)
    ensures Split(Export(items, columns).value, '\n') == [HeaderLine(columns)] + RowLines(Grid(items, columns))
  {
    var grid := Grid(items, columns);
    var lines := [HeaderLine(columns)] + RowLines(grid);
    var labels := ColumnLabels(columns);
    assert forall i :: 0 <= i < |labels| ==> '\n' !in labels[i] by {
      forall i | 0 <= i < |labels| ensures '\n' !in labels[i] {
        assert columns[i] in columns;
      }
    }
    JoinAvoids(labels, ",", '\n');
    forall i | 0 <= i < |grid| ensures '\n' !in RowLine(grid[i]) {
      var quoted := QuoteAll(grid[i]);
      forall j | 0 <= j < |quoted| ensures '\n' !in quoted[j] {
        EscapeAvoids(grid[i][j], '\n');
      }
      JoinAvoids(quoted, ",", '\n');
    }
    SplitJoin(lines, '\n');
  }

  /** A value without double quotes is written unchanged between the quotes. */
  lemma {:induction false} EscapeWithoutQuotes(v: string)
    requires '"' !in v
    ensures Escape(v) == v
  {
    if |v| > 0 {
      assert '"' !in v[1..];
      EscapeWithoutQuotes(v[1..]);
      assert [v[0]] + v[1..] == v;
    }
  }

  /** Escaping introduces no character other than quotes. */
  lemma {:induction false} EscapeAvoids(v: string, c: char)
    requires c != '"' && c !in v
    ensures c !in Escape(v)
  {
    if |v| > 0 {
      assert c !in v[1..];
      EscapeAvoids(v[1..], c);
    }
  }
}
