/** A worked export (App.tsx, `handleExport`): one BOM row with part
    number 100, description Bolt, quantity 5, unit ea and empty notes. */
module ExportExample {
  import opened Basics
  import opened Types
  import opened Registry
  import opened Csv

  /** The row as the service would return it, with its id. */
  const ExampleItem: ExtractedItem := map["id" := "x", "partNumber" := "100", "description" := "Bolt", "quantity" := "5", "unit" := "ea", "notes" := ""]

  /** The export is the unquoted header line, a line break, and the row
      with every value quoted; the empty note is written as `""`. */
  lemma BomExport()
    ensures Export([ExampleItem], DefaultConfig(BOM).columns) == Some("Part #,Description,Qty,Unit,Notes" + "\n" + "\"100\",\"Bolt\",\"5\",\"ea\",\"\"")
  {
    var columns := DefaultConfig(BOM).columns;
    var header := ExampleHeader();
    var row := ExampleRow();
    assert Grid([ExampleItem], columns) == [Cells(ExampleItem, columns)];
    assert RowLines(Grid([ExampleItem], columns)) == [row];
    JoinCons(header, [row], "\n");
  }

  /** The BOM header line. */
  lemma ExampleHeader() returns (h: string)
    ensures h == HeaderLine(DefaultConfig(BOM).columns)
    ensures h == "Part #,Description,Qty,Unit,Notes"
  {
    assert ColumnLabels(DefaultConfig(BOM).columns) == ["Part #", "Description", "Qty", "Unit", "Notes"];
    JoinFive("Part #", "Description", "Qty", "Unit", "Notes", ",");
    assert "Part #" + "," == "Part #,";
    assert "Part #," + "Description" == "Part #,Description";
    assert "Part #,Description" + "," == "Part #,Description,";
    assert "Part #,Description," + "Qty" == "Part #,Description,Qty";
    assert "Part #,Description,Qty" + "," == "Part #,Description,Qty,";
    assert "Part #,Description,Qty," + "Unit" == "Part #,Description,Qty,Unit";
    assert "Part #,Description,Qty,Unit" + "," == "Part #,Description,Qty,Unit,";
    assert "Part #,Description,Qty,Unit," + "Notes" == "Part #,Description,Qty,Unit,Notes";
    h := HeaderLine(DefaultConfig(BOM).columns);
  }

  /** The row's cells in BOM column order. */
  lemma ExampleCells()
    ensures Cells(ExampleItem, DefaultConfig(BOM).columns) == ["100", "Bolt", "5", "ea", ""]
  {
  }

  /** None of the values holds a quote, so each is only wrapped. */
  lemma ExampleQuotes()
    ensures QuoteAll(["100", "Bolt", "5", "ea", ""]) == ["\"100\"", "\"Bolt\"", "\"5\"", "\"ea\"", "\"\""]
  {
    EscapeWithoutQuotes("100");
    assert "\"" + "100" + "\"" == "\"100\"";
    EscapeWithoutQuotes("Bolt");
    assert "\"" + "Bolt" + "\"" == "\"Bolt\"";
    EscapeWithoutQuotes("5");
    assert "\"" + "5" + "\"" == "\"5\"";
    EscapeWithoutQuotes("ea");
    assert "\"" + "ea" + "\"" == "\"ea\"";
    EscapeWithoutQuotes("");
    assert "\"" + "" + "\"" == "\"\"";
  }

  /** The BOM data line of the row. */
  lemma ExampleRow() returns (r: string)
    ensures r == RowLine(Cells(ExampleItem, DefaultConfig(BOM).columns))
    ensures r == "\"100\",\"Bolt\",\"5\",\"ea\",\"\""
  {
    ExampleCells();
    ExampleQuotes();
    JoinFive("\"100\"", "\"Bolt\"", "\"5\"", "\"ea\"", "\"\"", ",");
    assert "\"100\"" + "," == "\"100\",";
    assert "\"100\"," + "\"Bolt\"" == "\"100\",\"Bolt\"";
    assert "\"100\",\"Bolt\"" + "," == "\"100\",\"Bolt\",";
    assert "\"100\",\"Bolt\"," + "\"5\"" == "\"100\",\"Bolt\",\"5\"";
    assert "\"100\",\"Bolt\",\"5\"" + "," == "\"100\",\"Bolt\",\"5\",";
    assert "\"100\",\"Bolt\",\"5\"," + "\"ea\"" == "\"100\",\"Bolt\",\"5\",\"ea\"";
    assert "\"100\",\"Bolt\",\"5\",\"ea\"" + "," == "\"100\",\"Bolt\",\"5\",\"ea\",";
    assert "\"100\",\"Bolt\",\"5\",\"ea\"," + "\"\"" == "\"100\",\"Bolt\",\"5\",\"ea\",\"\"";
    r := RowLine(["100", "Bolt", "5", "ea", ""]);
  }

  /** Joining five parts puts the separator between each neighbouring pair. */
  lemma JoinFive(a: string, b: string, c: string, d: string, e: string, sep: string)
    ensures Join([a, b, c, d, e], sep) == a + sep + b + sep + c + sep + d + sep + e
  {
    JoinCons(a, [b, c, d, e], sep);
    JoinCons(b, [c, d, e], sep);
    JoinCons(c, [d, e], sep);
    JoinCons(d, [e], sep);
  }
}
