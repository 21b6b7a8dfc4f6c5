/** The shared data model of the document digitiser (types.ts): document
    types, extracted rows, the processing status, history entries and the
    per-type configuration records. */
module Types {
  import opened Basics

  /** The closed set of supported document kinds. */
  datatype DocumentType = BOM | INVOICE | PO | OTHER

  /** The tag text the application uses for a document type (`${docType}`). */
  function DocTypeName(t: DocumentType): string {
    match t
    case BOM => "BOM"
    case INVOICE => "INVOICE"
    case PO => "PO"
    case OTHER => "OTHER"
  }

  /** The key under which every extracted row carries its identifier. */
  const IdKey: string := "id"

  /** An open record of string fields, as the JSON objects the AI returns. */
  type Fields = map<string, string>

  /** One extracted row: an open string-keyed record that always carries an
      `id`. Any other key is a column value. */
  type ExtractedItem = m: Fields | IdKey in m witness map["id" := ""]

  function ItemId(item: ExtractedItem): string {
    item[IdKey]
  }

  /** The displayed/exported value of a field: `item[key] || ''`. Values are
      strings, and the only falsy string is the empty one, so a missing key
      and an empty value both read as "". */
  function CellValue(item: Fields, key: string): string {
    if key in item then item[key] else ""
  }

  datatype Status = Idle | Uploading | Processing | Complete | Error

  datatype ProcessingState = ProcessingState(status: Status, message: Option<string>)

  /** A stored extraction session. `docType` is optional because entries
      stored before document types existed lack it. */
  datatype HistoryItem = HistoryItem(
    id: string,
    timestamp: int,
    fileName: string,
    docType: Option<DocumentType>,
    items: seq<ExtractedItem>)

  /** A table/export column. `header` is the source's `label` (a reserved word
      in Dafny): the text shown in the table head and written to the CSV header. */
  datatype ColumnDefinition = ColumnDefinition(key: string, header: string, minWidth: int)

  /** The configuration of one document type; `title` is the source's `label`. */
  datatype DocConfig = DocConfig(
    docType: DocumentType,
    title: string,
    prompt: string,
    columns: seq<ColumnDefinition>)

  function ColumnKeys(columns: seq<ColumnDefinition>): (keys: seq<string>)
    ensures |keys| == |columns|
    ensures forall i :: 0 <= i < |columns| ==> keys[i] == columns[i].key
  {
    seq(|columns|, i requires 0 <= i < |columns| => columns[i].key)
  }

  function ColumnLabels(columns: seq<ColumnDefinition>): (labels: seq<string>)
    ensures |labels| == |columns|
    ensures forall i :: 0 <= i < |columns| ==> labels[i] == columns[i].header
  {
    seq(|columns|, i requires 0 <= i < |columns| => columns[i].header)
  }

  /** Column keys identify columns: no two columns of a list share a key. */
  predicate DistinctKeys(columns: seq<ColumnDefinition>) {
    forall i, j :: 0 <= i < j < |columns| ==> columns[i].key != columns[j].key
  }
}
