/** The extraction service (`transcribeDocument` in services/geminiService.ts):
    it builds one multi-part request from the files, the prompt and the
    type's schema, and turns the model's reply into rows with fresh ids.
    The model call, `JSON.parse` and `crypto.randomUUID` are parameters. */
module GeminiService {
  import opened Basics
  import opened Types
  import opened Schemas

  /** A file as the service receives it: base64 content and MIME type. */
  datatype FileInput = FileInput(base64: string, mimeType: string)

  /** One part of the request: inline file data, or the instruction text. */
  datatype Part = InlineData(mimeType: string, data: string) | TextPart(text: string)

  datatype Request = Request(model: string, parts: seq<Part>, responseMimeType: string, schema: ResponseSchema)

  /** What the call yields: a reply whose text may be missing, or a thrown
      error (network, quota, refusal, ...). */
  datatype Reply = Reply(text: Option<string>) | CallError

  /** What `JSON.parse` yields on the reply text: an array of string-valued
      objects, some other JSON value, or a syntax error. */
  datatype Json = JsonArray(elements: seq<Fields>) | JsonNonArray | JsonSyntaxError

  const Model: string := "gemini-3-pro-preview"
  const JsonMimeType: string := "application/json"

  const MissingKeyMessage: string := "API_KEY environment variable is missing."
  const FailureMessage: string := "Failed to transcribe the documents. Please ensure the images are clear."

  /** The fixed text appended to every prompt. */
  const Directive: string :=
    "\n            \n"
    + "            Analyze ALL provided images/pages as a single logical document. Consolidate the data into one table.\n"
    + "            Return the result strictly as a JSON array matching the schema provided. \n"
    + "            Ensure all values are strings. If a field is missing, use an empty string."

  /** The instruction: the custom prompt followed by the directive. */
  function Instruction(prompt: string): (text: string)
    ensures StartsWith(text, prompt) && text[|prompt|..] == Directive
  {
    prompt + Directive
  }

  /** The request: one inline part per file, in file order, then the
      instruction text; JSON output constrained by the type's schema. */
  function BuildRequest(files: seq<FileInput>, docType: DocumentType, prompt: string): (req: Request)
    ensures |req.parts| == |files| + 1
    ensures forall i :: 0 <= i < |files| ==> req.parts[i] == InlineData(files[i].mimeType, files[i].base64)
    ensures req.parts[|files|] == TextPart(Instruction(prompt))
    ensures req.model == Model && req.responseMimeType == JsonMimeType && req.schema == SchemaFor(docType)
  {
    var fileParts := seq(|files|, i requires 0 <= i < |files| => InlineData(files[i].mimeType, files[i].base64));
    Request(Model, fileParts + [TextPart(Instruction(prompt))], JsonMimeType, SchemaFor(docType))
  }

  /** The files can be read back from the request, in order: only the last
      part is text. */
  lemma RequestCarriesFiles(files: seq<FileInput>, docType: DocumentType, prompt: string)
    ensures var parts := BuildRequest(files, docType, prompt).parts;
      forall i :: 0 <= i < |parts| ==> (parts[i].TextPart? <==> i == |files|)
    ensures var parts := BuildRequest(files, docType, prompt).parts;
      seq(|files|, i requires 0 <= i < |files| => FileInput(parts[i].data, parts[i].mimeType)) == files
  {
  }

  /** `{...item, id: crypto.randomUUID()}` for each element, in order: every
      element keeps each parsed field except `id`, which the fresh id
      overrides. `newId(i)` is the id generated for the i-th element. */
  function AssignIds(elements: seq<Fields>, newId: nat -> string): (items: seq<ExtractedItem>)
    ensures |items| == |elements|
    ensures forall i :: 0 <= i < |elements| ==> ItemId(items[i]) == newId(i)
    ensures forall i, k :: 0 <= i < |elements| && k != IdKey ==>
      (k in items[i] <==> k in elements[i]) && (k in elements[i] ==> items[i][k] == elements[i][k])
  {
    seq(|elements|, i requires 0 <= i < |elements| => elements[i][IdKey := newId(i)])
  }

  /** Dropping the ids again gives back the parsed elements without their
      own ids. */
  lemma AssignIdsKeepsFields(elements: seq<Fields>, newId: nat -> string, i: nat)
    requires i < |elements|
    ensures WithoutId(AssignIds(elements, newId)[i]) == WithoutId(elements[i])
  {
    var a, b := WithoutId(AssignIds(elements, newId)[i]), WithoutId(elements[i]);
    assert a.Keys == b.Keys;
  }

  /** A record with its `id` key removed. */
  function WithoutId(m: Fields): Fields {
    m - {IdKey}
  }

  /** With a generator that never repeats itself, the rows' ids are
      pairwise distinct, whatever ids the model put in. */
  lemma AssignIdsDistinct(elements: seq<Fields>, newId: nat -> string)
    requires forall i, j :: 0 <= i < j < |elements| ==> newId(i) != newId(j)
    ensures var items := AssignIds(elements, newId);
      forall i, j :: 0 <= i < j < |items| ==> ItemId(items[i]) != ItemId(items[j])
  {
  }

  /** `transcribeDocument`. A missing (or empty) API key fails before
      anything else with its own message. Past that point, every failure
      (the call, the parse, a reply that is not an array) becomes the one
      fixed failure message; a reply without text is the empty result. */
  function Transcribe(
    apiKey: Option<string>,
    files: seq<FileInput>, docType: DocumentType, prompt: string,
    call: Request -> Reply, parse: string -> Json, newId: nat -> string
  ): (r: Result<seq<ExtractedItem>>)
    ensures apiKey.None? || apiKey == Some("") <==> r == Failure(MissingKeyMessage)
    ensures r.Failure? ==> r.error == MissingKeyMessage || r.error == FailureMessage
    ensures apiKey.Some? && apiKey.value != "" && call(BuildRequest(files, docType, prompt)) in {Reply(None), Reply(Some(""))}
      ==> r == Success([])
  {
    if apiKey.None? || apiKey.value == "" then Failure(MissingKeyMessage)
    else
      match call(BuildRequest(files, docType, prompt))
      case CallError => Failure(FailureMessage)
      case Reply(text) =>
        if text.None? || text.value == "" then Success([])
        else
          match parse(text.value)
          case JsonArray(elements) => Success(AssignIds(elements, newId))
          case _ => Failure(FailureMessage)
  }

  /** Given a key, the outcome is decided by the reply alone: a failed call
      or an unparsable or non-array reply is the fixed failure, a reply
      without text is the empty result, and an array reply becomes its
      elements with fresh ids, in order. */
  lemma TranscribeOutcomes(
    apiKey: string,
    files: seq<FileInput>, docType: DocumentType, prompt: string,
    call: Request -> Reply, parse: string -> Json, newId: nat -> string)
    requires apiKey != ""
    ensures var reply := call(BuildRequest(files, docType, prompt));
      var r := Transcribe(Some(apiKey), files, docType, prompt, call, parse, newId);
      (reply.CallError? ==> r == Failure(FailureMessage))
      && (reply.Reply? && (reply.text.None? || reply.text.value == "") ==> r == Success([]))
      && (reply.Reply? && reply.text.Some? && reply.text.value != "" ==>
            var json := parse(reply.text.value);
            (json.JsonArray? ==> r == Success(AssignIds(json.elements, newId)))
            && (!json.JsonArray? ==> r == Failure(FailureMessage)))
  {
  }

  /** The result of a successful extraction has pairwise distinct ids when
      the id generator never repeats itself. */
  lemma TranscribeDistinctIds(
    apiKey: Option<string>,
    files: seq<FileInput>, docType: DocumentType, prompt: string,
    call: Request -> Reply, parse: string -> Json, newId: nat -> string)
    requires forall i, j :: 0 <= i < j ==> newId(i) != newId(j)
    ensures var r := Transcribe(apiKey, files, docType, prompt, call, parse, newId);
      r.Success? ==> forall i, j :: 0 <= i < j < |r.value| ==> ItemId(r.value[i]) != ItemId(r.value[j])
  {
    var r := Transcribe(apiKey, files, docType, prompt, call, parse, newId);
    if r.Success? && |r.value| > 0 {
      var reply := call(BuildRequest(files, docType, prompt));
      var elements := parse(reply.text.value).elements;
      AssignIdsDistinct(elements, newId);
    }
  }
}
