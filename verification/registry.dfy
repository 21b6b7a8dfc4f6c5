/** The document-type registry (`DEFAULT_CONFIGS` in App.tsx): for each
    document type, its display label, the extraction instruction sent to the
    AI model, and the ordered list of table/export columns. */
module Registry {
  import opened Basics
  import opened Types

  const BomPrompt: string :=
    "You are an expert industrial transcriptionist. Analyze this handwritten Bill of Materials.\n"
    + "    Extract: 'Part #' (partNumber), 'Description' (description), 'Qty' (quantity), 'Unit' (unit), 'Notes' (notes).\n"
    + "    If handwriting is messy, use engineering context. Return empty string for missing fields."

  const InvoicePrompt: string :=
    "Analyze this invoice. Extract Vendor Name and line items into a table. \n"
    + "    Fields: 'Vendor' (Vendor), 'Item Code' (itemCode), 'Description' (description), 'Quantity' (quantity), 'Unit Price' (unitPrice), 'Total' (total).\n"
    + "    Ensure numeric values are formatted cleanly."

  const PoPrompt: string :=
    "Analyze this Purchase Order. Extract items.\n"
    + "    Fields: 'SKU' (sku), 'Description' (description), 'Quantity' (quantity), 'Unit Cost' (unitCost), 'Line Total' (lineTotal)."

  const OtherPrompt: string :=
    "Analyze this document and extract tabular data. \n"
    + "    Map columns to generic fields: col1, col2, col3, col4, notes.\n"
    + "    Try to map the most important identifier to col1 and description to col2."

  /** The built-in configuration of each document type. */
  function DefaultConfig(t: DocumentType): (c: DocConfig)
    ensures c.docType == t
    ensures |c.columns| > 0
    ensures DistinctKeys(c.columns)
  {
    match t
    case BOM => DocConfig(BOM, "Bill of Materials", BomPrompt, DefaultColumns(BOM))
    case INVOICE => DocConfig(INVOICE, "Invoice", InvoicePrompt, DefaultColumns(INVOICE))
    case PO => DocConfig(PO, "Purchase Order", PoPrompt, DefaultColumns(PO))
    case OTHER => DocConfig(OTHER, "Other Document", OtherPrompt, DefaultColumns(OTHER))
  }

  /** The ordered columns of each document type. */
  function DefaultColumns(t: DocumentType): seq<ColumnDefinition> {
    match t
    case BOM => BomColumns
    case INVOICE => InvoiceColumns
    case PO => PoColumns
    case OTHER => OtherColumns
  }

  const BomColumns: seq<ColumnDefinition> := [
    ColumnDefinition("partNumber", "Part #", 120),
    ColumnDefinition("description", "Description", 250),
    ColumnDefinition("quantity", "Qty", 70),
    ColumnDefinition("unit", "Unit", 70),
    ColumnDefinition("notes", "Notes", 200)]

  const InvoiceColumns: seq<ColumnDefinition> := [
    ColumnDefinition("Vendor", "Vendor", 120),
    ColumnDefinition("itemCode", "Item Code", 120),
    ColumnDefinition("description", "Description", 250),
    ColumnDefinition("quantity", "Qty", 80),
    ColumnDefinition("unitPrice", "Unit Price", 100),
    ColumnDefinition("total", "Total", 100)]

  const PoColumns: seq<ColumnDefinition> := [
    ColumnDefinition("sku", "SKU", 120),
    ColumnDefinition("description", "Description", 250),
    ColumnDefinition("quantity", "Qty", 80),
    ColumnDefinition("unitCost", "Unit Cost", 100),
    ColumnDefinition("lineTotal", "Total", 100)]

  const OtherColumns: seq<ColumnDefinition> := [
    ColumnDefinition("col1", "Column 1", 120),
    ColumnDefinition("col2", "Column 2", 150),
    ColumnDefinition("col3", "Column 3", 120),
    ColumnDefinition("col4", "Column 4", 120),
    ColumnDefinition("notes", "Notes", 200)]

  /** The columns never use the names the rest of the application reserves:
      `id` is every row's identifier, and `action` is the width slot of the
      table's delete column. Every width is positive. */
  lemma ColumnsAvoidReservedKeys(t: DocumentType)
    ensures forall c :: c in DefaultColumns(t) ==>
      c.key != IdKey && c.key != "action" && c.minWidth > 0
  {
  }

  /** Text that needs no quoting in a CSV line: no comma, line break or
      double quote. */
  predicate PlainText(s: string) {
    ',' !in s && '\n' !in s && '"' !in s
  }

  /** Every header label of the registry is plain text, so the unquoted CSV
      header line is unambiguous. */
  lemma HeadersArePlainText(t: DocumentType)
    ensures forall c :: c in DefaultColumns(t) ==> PlainText(c.header)
  {
    match t
    case BOM => BomHeadersPlain();
    case INVOICE => InvoiceHeadersPlain();
    case PO => PoHeadersPlain();
    case OTHER => OtherHeadersPlain();
  }

  lemma BomHeadersPlain()
    ensures forall c :: c in BomColumns ==> PlainText(c.header)
  {
    var columns := BomColumns;
    forall i | 0 <= i < |columns| ensures PlainText(columns[i].header) {
      if i == 0 { assert PlainText("Part #"); }
      else if i == 1 { assert PlainText("Description"); }
      else if i == 2 { assert PlainText("Qty"); }
      else if i == 3 { assert PlainText("Unit"); }
      else { assert PlainText("Notes"); }
    }
  }

  lemma InvoiceHeadersPlain()
    ensures forall c :: c in InvoiceColumns ==> PlainText(c.header)
  {
    var columns := InvoiceColumns;
    forall i | 0 <= i < |columns| ensures PlainText(columns[i].header) {
      if i == 0 { assert PlainText("Vendor"); }
      else if i == 1 { assert PlainText("Item Code"); }
      else if i == 2 { assert PlainText("Description"); }
      else if i == 3 { assert PlainText("Qty"); }
      else if i == 4 { assert PlainText("Unit Price"); }
      else { assert PlainText("Total"); }
    }
  }

  lemma PoHeadersPlain()
    ensures forall c :: c in PoColumns ==> PlainText(c.header)
  {
    var columns := PoColumns;
    forall i | 0 <= i < |columns| ensures PlainText(columns[i].header) {
      if i == 0 { assert PlainText("SKU"); }
      else if i == 1 { assert PlainText("Description"); }
      else if i == 2 { assert PlainText("Qty"); }
      else if i == 3 { assert PlainText("Unit Cost"); }
      else { assert PlainText("Total"); }
    }
  }

  lemma OtherHeadersPlain()
    ensures forall c :: c in OtherColumns ==> PlainText(c.header)
  {
    var columns := OtherColumns;
    forall i | 0 <= i < |columns| ensures PlainText(columns[i].header) {
      if i == 0 { assert PlainText("Column 1"); }
      else if i == 1 { assert PlainText("Column 2"); }
      else if i == 2 { assert PlainText("Column 3"); }
      else if i == 3 { assert PlainText("Column 4"); }
      else { assert PlainText("Notes"); }
    }
  }
}
