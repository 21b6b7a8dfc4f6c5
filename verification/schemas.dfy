/** The structured-output schemas sent with every extraction request
    (`SCHEMAS` in services/geminiService.ts): for each document type, an array
    of objects whose properties are all strings. */
module Schemas {
  import opened Basics
  import opened Types
  import opened Registry

  /** The scalar property types of the schema language; the schemas below
      use only strings. */
  datatype PropertyType = StringType | NumberType | IntegerType | BooleanType

  datatype Property = Property(name: string, propertyType: PropertyType)

  /** An object schema: ordered properties and, optionally, the names the
      model must always fill in. */
  datatype ObjectSchema = ObjectSchema(properties: seq<Property>, required: Option<seq<string>>)

  /** The response schema: an array of objects. */
  datatype ResponseSchema = ArrayOf(items: ObjectSchema)

  function Str(name: string): Property {
    Property(name, StringType)
  }

  function SchemaFor(t: DocumentType): ResponseSchema {
    match t
    case BOM =>
      ArrayOf(ObjectSchema(
        [Str("partNumber"), Str("description"), Str("quantity"), Str("unit"), Str("notes")],
        Some(["partNumber", "description", "quantity"])))
    case INVOICE =>
      ArrayOf(ObjectSchema(
        [Str("Vendor"), Str("itemCode"), Str("description"), Str("quantity"), Str("unitPrice"), Str("total")],
        Some(["description", "total"])))
    case PO =>
      ArrayOf(ObjectSchema(
        [Str("sku"), Str("description"), Str("quantity"), Str("unitCost"), Str("lineTotal")],
        Some(["description", "quantity", "lineTotal"])))
    case OTHER =>
      ArrayOf(ObjectSchema(
        [Str("col1"), Str("col2"), Str("col3"), Str("col4"), Str("notes")],
        None))
  }

  function PropertyNames(properties: seq<Property>): (names: seq<string>)
    ensures |names| == |properties|
    ensures forall i :: 0 <= i < |properties| ==> names[i] == properties[i].name
  {
    seq(|properties|, i requires 0 <= i < |properties| => properties[i].name)
  }

  /** The schema asks for exactly the registry's columns of the same type, in
      the same order, each typed as a string: whatever the model returns lines
      up with the table and the export. */
  lemma SchemaMatchesColumns(t: DocumentType)
    ensures PropertyNames(SchemaFor(t).items.properties) == ColumnKeys(DefaultConfig(t).columns)
    ensures forall p :: p in SchemaFor(t).items.properties ==> p.propertyType == StringType
  {
  }

  /** Every required name is one of the schema's properties; only OTHER has
      no required list. */
  lemma RequiredAreProperties(t: DocumentType)
    ensures SchemaFor(t).items.required.Some? <==> t != OTHER
    ensures SchemaFor(t).items.required.Some? ==>
      forall r :: r in SchemaFor(t).items.required.value ==> r in PropertyNames(SchemaFor(t).items.properties)
  {
    var names := PropertyNames(SchemaFor(t).items.properties);
    match t
    case BOM =>
      assert names == ["partNumber", "description", "quantity", "unit", "notes"];
    case INVOICE =>
      assert names == ["Vendor", "itemCode", "description", "quantity", "unitPrice", "total"];
    case PO =>
      assert names == ["sku", "description", "quantity", "unitCost", "lineTotal"];
    case OTHER =>
  }
}
