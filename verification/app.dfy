/** The application shell (App.tsx) as a state machine: the session record
    and its handlers for file selection, history selection and deletion,
    starting over, cell edits, row deletes and the export, each followed by
    the effect that mirrors the active rows into their history entry.
    Browser reading, the model call, `JSON.parse`, `crypto.randomUUID` and
    `Date.now` are parameters. */
module App {
  import opened Basics
  import opened Types
  import opened Registry
  import opened Csv
  import opened Items
  import opened History
  import opened Upload
  import opened GeminiService

  /** The state of the application. */
  datatype Session = Session(
    files: seq<FileRef>,
    previews: seq<string>,
    docType: DocumentType,
    items: seq<ExtractedItem>,
    state: ProcessingState,
    activeId: Option<string>,
    history: seq<HistoryItem>)

  /** The outside world an extraction depends on: the API key, the file
      reader (base64 content and data-URL preview of a file), the model
      call, the JSON parser and the id generator. */
  datatype Env = Env(
    apiKey: Option<string>,
    read: FileRef -> (string, string),
    call: Request -> Reply,
    parse: string -> Json,
    newId: nat -> string)

  const UnknownErrorMessage: string := "Unknown error occurred"

  /** The start: no files, BOM, no rows, idle, nothing active, and the
      history loaded from storage. */
  function Start(saved: Option<string>, decode: string -> Option<seq<HistoryItem>>): Session {
    Session([], [], BOM, [], ProcessingState(Idle, None), None, LoadHistory(saved, decode))
  }

  /** The sync effect's condition: an active id that is set (the empty
      string is falsy) while the status is complete. */
  predicate Syncing(s: Session) {
    s.activeId.Some? && s.activeId.value != "" && s.state.status == Complete
  }

  /** The active rows are what the active history entry holds. */
  predicate Mirrored(s: Session) {
    Syncing(s) ==>
      forall i :: 0 <= i < |s.history| && s.history[i].id == s.activeId.value ==> s.history[i].items == s.items
  }

  /** The sync effect that runs after every change: while syncing, the
      active rows are copied into the entry with the active id. Only the
      history changes, and afterwards the active rows are mirrored. */
  function Sync(s: Session): (r: Session)
    ensures r == s.(history := r.history)
    ensures Mirrored(r)
    ensures Ids(r.history) == Ids(s.history)
    ensures Syncing(s) ==> r.history == MirrorItems(s.history, s.activeId.value, s.items)
    ensures !Syncing(s) ==> r == s
  {
    if Syncing(s) then s.(history := MirrorItems(s.history, s.activeId.value, s.items)) else s
  }

  /** Once mirrored, syncing again changes nothing. */
  lemma SyncMirroredIsNoOp(s: Session)
    requires Mirrored(s)
    ensures Sync(s) == s
  {
    if Syncing(s) {
      MirrorSameIsNoOp(s.history, s.activeId.value, s.items);
    }
  }

  // ---------------------------------------------------------------------------
  // File selection
  // ---------------------------------------------------------------------------

  /** The label of a history entry: the file's name for one file, otherwise
      the first name followed by " +" and the number of further files. */
  function FileNameLabel(files: seq<FileRef>): (text: string)
    requires |files| > 0
    ensures StartsWith(text, files[0].name)
    ensures |files| == 1 <==> text == files[0].name
    ensures |files| > 1 ==> StartsWith(text, files[0].name + " +") && |text| > |files[0].name| + 2
  {
    if |files| == 1 then files[0].name
    else files[0].name + " +" + NatToString(|files| - 1)
  }

  /** The number of files can be read back off a multi-file label, whose
      count is written without a leading zero. */
  lemma FileNameLabelCount(files: seq<FileRef>)
    requires |files| > 1
    ensures var text := FileNameLabel(files);
      var digits := text[|files[0].name| + 2..];
      (forall i :: 0 <= i < |digits| ==> '0' <= digits[i] <= '9')
      && |digits| > 0 && digits[0] != '0'
      && DigitsValue(digits) + 1 == |files|
  {
    var text := FileNameLabel(files);
    assert text[|files[0].name| + 2..] == NatToString(|files| - 1);
    NatToStringValue(|files| - 1);
  }

  /** The progress message while the model works. */
  function AnalyzingMessage(count: nat, docType: DocumentType): string {
    "Analyzing " + NatToString(count) + " " + DocTypeName(docType) + " page(s)..."
  }

  /** The message shown on failure: the error's message, or a default when
      it has none (or an empty one). */
  function ErrorMessage(message: Option<string>): (m: string)
    ensures m != ""
    ensures message.Some? && message.value != "" ==> m == message.value
    ensures message.None? || message == Some("") ==> m == UnknownErrorMessage
  {
    if message.Some? && message.value != "" then message.value else UnknownErrorMessage
  }

  /** The first step: the new batch and type are taken, any active entry is
      let go, and the status becomes uploading. Rows and history stay. */
  function Begin(s: Session, files: seq<FileRef>, docType: DocumentType): Session {
    s.(activeId := None, files := files, docType := docType, state := ProcessingState(Uploading, None))
  }

  /** What the reader yields for a batch: one loaded file per file, in
      order, keeping each file's MIME type. */
  function ReadAll(files: seq<FileRef>, read: FileRef -> (string, string)): (inputs: seq<FileInput>)
    ensures |inputs| == |files|
    ensures forall i :: 0 <= i < |files| ==> inputs[i] == FileInput(read(files[i]).0, files[i].mimeType)
  {
    seq(|files|, i requires 0 <= i < |files| => FileInput(read(files[i]).0, files[i].mimeType))
  }

  function Previews(files: seq<FileRef>, read: FileRef -> (string, string)): (previews: seq<string>)
    ensures |previews| == |files|
    ensures forall i :: 0 <= i < |files| ==> previews[i] == read(files[i]).1
  {
    seq(|files|, i requires 0 <= i < |files| => read(files[i]).1)
  }

  /** The second step, once every file is read: previews are shown and the
      status becomes processing, with a message naming the count and type. */
  function Loaded(s: Session, files: seq<FileRef>, docType: DocumentType, read: FileRef -> (string, string)): Session {
    s.(previews := Previews(files, read), state := ProcessingState(Processing, Some(AnalyzingMessage(|files|, docType))))
  }

  /** The extraction itself, with the built-in prompt of the chosen type. */
  function Extract(files: seq<FileRef>, docType: DocumentType, env: Env): Result<seq<ExtractedItem>> {
    Transcribe(env.apiKey, ReadAll(files, env.read), docType, DefaultConfig(docType).prompt,
      env.call, env.parse, env.newId)
  }

  /** The history entry a successful extraction records. */
  function NewEntry(files: seq<FileRef>, docType: DocumentType, items: seq<ExtractedItem>, entryId: string, timestamp: int): HistoryItem
    requires |files| > 0
  {
    HistoryItem(entryId, timestamp, FileNameLabel(files), Some(docType), items)
  }

  /** The success step: the rows are shown, the status is complete, a new
      entry is put first in the history and becomes active. */
  function Succeeded(s: Session, files: seq<FileRef>, docType: DocumentType, items: seq<ExtractedItem>, entryId: string, timestamp: int): Session
    requires |files| > 0
  {
    s.(items := items, state := ProcessingState(Complete, None),
       history := Record(s.history, NewEntry(files, docType, items, entryId, timestamp)),
       activeId := Some(entryId))
  }

  /** The failure step: only the status changes, to error with the thrown
      message; the previous rows stay. */
  function Failed(s: Session, message: Option<string>): Session {
    s.(state := ProcessingState(Error, Some(ErrorMessage(message))))
  }

  /** `handleFileSelect`, start to end. The batch is never empty: the upload
      area hands on only non-empty batches. */
  function HandleFileSelect(s: Session, files: seq<FileRef>, docType: DocumentType, env: Env, entryId: string, timestamp: int): (r: Session)
    requires |files| > 0
    ensures r.files == files && r.docType == docType && r.previews == Previews(files, env.read)
    ensures Extract(files, docType, env).Success? ==>
      r.items == Extract(files, docType, env).value && r.state == ProcessingState(Complete, None)
      && r.activeId == Some(entryId) && |r.history| == |s.history| + 1
      && r.history[0].id == entryId && r.history[0].items == r.items
      && r.history[0].docType == Some(docType) && r.history[0].fileName == FileNameLabel(files)
      && r.history[0].timestamp == timestamp
    ensures Extract(files, docType, env).Success? && entryId !in Ids(s.history) ==> r.history[1..] == s.history
    ensures Extract(files, docType, env).Failure? ==>
      r.state == ProcessingState(Error, Some(Extract(files, docType, env).error))
      && r.items == s.items && r.activeId.None? && r.history == s.history
  {
    var processing := Loaded(Begin(s, files, docType), files, docType, env.read);
    match Extract(files, docType, env)
    case Success(items) =>
      var done := Succeeded(processing, files, docType, items, entryId, timestamp);
      var entry := NewEntry(files, docType, items, entryId, timestamp);
      assert entryId !in Ids(s.history) ==> Sync(done) == done by {
        if entryId !in Ids(s.history) {
          forall i | 0 <= i < |done.history| && done.history[i].id == entryId
            ensures done.history[i].items == items
          {
          }
          SyncMirroredIsNoOp(done);
        }
      }
      Sync(done)
    case Failure(e) =>
      Sync(Failed(processing, Some(e)))
  }

  /** A failed extraction reports the missing key when there is no key and
      the one fixed message otherwise. */
  lemma FileSelectFailureMessage(s: Session, files: seq<FileRef>, docType: DocumentType, env: Env, entryId: string, timestamp: int)
    requires |files| > 0
    requires Extract(files, docType, env).Failure?
    ensures var r := HandleFileSelect(s, files, docType, env, entryId, timestamp);
      r.state.message == Some(if env.apiKey.None? || env.apiKey == Some("") then MissingKeyMessage else FailureMessage)
  {
  }

  /** The status runs through uploading (nothing active, rows kept) and
      processing (previews shown, the count and type announced) to complete
      or error. */
  lemma FileSelectSteps(s: Session, files: seq<FileRef>, docType: DocumentType, read: FileRef -> (string, string))
    ensures var uploading := Begin(s, files, docType);
      uploading.state == ProcessingState(Uploading, None) && uploading.activeId.None?
      && uploading.items == s.items && uploading.history == s.history
    ensures var processing := Loaded(Begin(s, files, docType), files, docType, read);
      processing.state == ProcessingState(Processing, Some("Analyzing " + NatToString(|files|) + " " + DocTypeName(docType) + " page(s)..."))
      && processing.previews == Previews(files, read) && processing.activeId.None?
  {
  }

  /** Which of complete and error a selection ends in is decided by the
      extraction alone. */
  lemma FileSelectOutcome(s: Session, files: seq<FileRef>, docType: DocumentType, env: Env, entryId: string, timestamp: int)
    requires |files| > 0
    ensures var r := HandleFileSelect(s, files, docType, env, entryId, timestamp);
      r.state.status == (if Extract(files, docType, env).Success? then Complete else Error)
  {
  }

  /** The upload area's accepted batches are exactly the ones
      `handleFileSelect` can take. */
  lemma SelectedBatchIsNonEmpty(files: seq<FileRef>, selectedType: DocumentType)
    requires ValidateAndPass(files, selectedType).Selected?
    ensures |ValidateAndPass(files, selectedType).files| > 0
  {
  }

  // ---------------------------------------------------------------------------
  // History, starting over, edits
  // ---------------------------------------------------------------------------

  /** `handleHistorySelect`: the entry's rows and type come back (a missing
      type reads as BOM), the file list and previews are cleared, the entry
      becomes active and the status complete. The history is unchanged when
      the entry is one of its own and ids are distinct. */
  function HandleHistorySelect(s: Session, entry: HistoryItem): (r: Session)
    ensures r.items == entry.items && r.files == [] && r.previews == []
    ensures r.docType == (if entry.docType.Some? then entry.docType.value else BOM)
    ensures r.activeId == Some(entry.id) && r.state == ProcessingState(Complete, None)
    ensures entry in s.history && DistinctIds(s.history) ==> r.history == s.history
  {
    var selected := s.(items := entry.items, files := [], previews := [], docType := entry.docType.GetOr(BOM),
                       activeId := Some(entry.id), state := ProcessingState(Complete, None));
    assert entry in s.history && DistinctIds(s.history) ==> Sync(selected) == selected by {
      if entry in s.history && DistinctIds(s.history) {
        var k :| 0 <= k < |s.history| && s.history[k] == entry;
        forall i | 0 <= i < |s.history| && s.history[i].id == entry.id ensures s.history[i].items == entry.items {
        }
        SyncMirroredIsNoOp(selected);
      }
    }
    Sync(selected)
  }

  /** `handleNewUpload`: back to idle with no files, previews or rows and
      nothing active; the history and the chosen type stay. */
  function HandleNewUpload(s: Session): (r: Session)
    ensures r.files == [] && r.previews == [] && r.items == [] && r.activeId.None?
    ensures r.state == ProcessingState(Idle, None)
    ensures r.history == s.history && r.docType == s.docType
  {
    Sync(s.(files := [], previews := [], items := [], state := ProcessingState(Idle, None), activeId := None))
  }

  /** `handleDeleteHistory`: the entry leaves the history; if it was the
      active one the session starts over, otherwise the session is as it
      was. */
  function HandleDeleteHistory(s: Session, id: string): (r: Session)
    ensures id !in Ids(r.history)
    ensures Mirrored(s) ==> r.history == RemoveEntry(s.history, id)
    ensures s.activeId == Some(id) ==> r == HandleNewUpload(s).(history := RemoveEntry(s.history, id))
    ensures s.activeId != Some(id) ==>
      r.items == s.items && r.state == s.state && r.activeId == s.activeId
      && r.files == s.files && r.previews == s.previews && r.docType == s.docType
  {
    var removed := s.(history := RemoveEntry(s.history, id));
    if s.activeId == Some(id) then
      HandleNewUpload(removed)
    else
      assert Mirrored(s) ==> Mirrored(removed) by {
        if Mirrored(s) && Syncing(removed) {
          forall i | 0 <= i < |removed.history| && removed.history[i].id == s.activeId.value
            ensures removed.history[i].items == s.items
          {
            assert removed.history[i] in s.history;
          }
        }
      }
      if Mirrored(s) then SyncMirroredIsNoOp(removed); Sync(removed)
      else Sync(removed)
  }

  /** `handleUpdateItem`, then the sync: the rows get the edit, and while
      an entry is active and complete it holds the edited rows too. */
  function HandleUpdateItem(s: Session, id: string, field: string, value: string): (r: Session)
    ensures r.items == UpdateItem(s.items, id, field, value)
    ensures r == s.(items := r.items, history := r.history)
    ensures Syncing(s) ==> r.history == MirrorItems(s.history, s.activeId.value, r.items)
    ensures Syncing(s) ==> forall i :: 0 <= i < |r.history| && r.history[i].id == s.activeId.value ==> r.history[i].items == r.items
    ensures !Syncing(s) ==> r.history == s.history
  {
    Sync(s.(items := UpdateItem(s.items, id, field, value)))
  }

  /** `handleDeleteItem`, then the sync. */
  function HandleDeleteItem(s: Session, id: string): (r: Session)
    ensures r.items == DeleteItem(s.items, id)
    ensures r == s.(items := r.items, history := r.history)
    ensures Syncing(s) ==> r.history == MirrorItems(s.history, s.activeId.value, r.items)
    ensures Syncing(s) ==> forall i :: 0 <= i < |r.history| && r.history[i].id == s.activeId.value ==> r.history[i].items == r.items
    ensures !Syncing(s) ==> r.history == s.history
  {
    Sync(s.(items := DeleteItem(s.items, id)))
  }

  // ---------------------------------------------------------------------------
  // Export
  // ---------------------------------------------------------------------------

  /** `handleExport`: nothing for an empty table, otherwise the CSV text of
      the rows under the built-in columns of the current type. */
  function HandleExport(s: Session): (csv: Option<string>)
    ensures csv.None? <==> |s.items| == 0
    ensures csv.Some? ==> StartsWith(csv.value, HeaderLine(DefaultConfig(s.docType).columns) + "\n")
  {
    Export(s.items, DefaultConfig(s.docType).columns)
  }

  /** Every export reads back as the column labels of the current type and
      the rows' values in those columns. */
  lemma HandleExportReadsBack(s: Session)
    requires |s.items| > 0
    ensures var columns := DefaultConfig(s.docType).columns;
      ReadCsv(HandleExport(s).value) == Some(Table(ColumnLabels(columns), Grid(s.items, columns)))
  {
    var columns := DefaultConfig(s.docType).columns;
    HeadersArePlainText(s.docType);
    ExportRoundTrip(s.items, columns);
  }

  /** The download's file name: the type, "_Export_", the date part of the
      ISO time stamp (its first ten characters) and ".csv". */
  function ExportFileName(docType: DocumentType, isoTime: string): (name: string)
    ensures StartsWith(name, DocTypeName(docType) + "_Export_")
    ensures |isoTime| >= 10 ==> name[|DocTypeName(docType)| + 8..] == isoTime[..10] + ".csv"
  {
    var date := if |isoTime| >= 10 then isoTime[..10] else isoTime;
    DocTypeName(docType) + "_Export_" + date + ".csv"
  }

  // ---------------------------------------------------------------------------
  // The session as a whole
  // ---------------------------------------------------------------------------

  /** The user's actions, with the id and time stamp a file selection
      would draw. */
  datatype Action =
    | SelectFiles(files: seq<FileRef>, docType: DocumentType, entryId: string, timestamp: int)
    | SelectHistory(entry: HistoryItem)
    | DeleteHistory(id: string)
    | NewUpload
    | EditCell(id: string, field: string, value: string)
    | DeleteRow(id: string)

  /** What the interface lets happen: files can only be chosen while the
      session is idle (the upload area is shown only then), a selection
      carries a non-empty batch and draws an id no entry has; a history
      entry is picked from the history. */
  predicate Allowed(s: Session, a: Action) {
    match a
    case SelectFiles(files, _, entryId, _) => s.state.status == Idle && |files| > 0 && entryId !in Ids(s.history)
    case SelectHistory(entry) => entry in s.history
    case _ => true
  }

  function Dispatch(s: Session, a: Action, env: Env): Session
    requires Allowed(s, a)
  {
    match a
    case SelectFiles(files, docType, entryId, timestamp) => HandleFileSelect(s, files, docType, env, entryId, timestamp)
    case SelectHistory(entry) => HandleHistorySelect(s, entry)
    case DeleteHistory(id) => HandleDeleteHistory(s, id)
    case NewUpload => HandleNewUpload(s)
    case EditCell(id, field, value) => HandleUpdateItem(s, id, field, value)
    case DeleteRow(id) => HandleDeleteItem(s, id)
  }

  /** What holds between actions: history ids are distinct, an active id
      names an entry, that entry holds the active rows, an idle session
      has no rows and nothing active, and a failed one nothing active. */
  predicate Inv(s: Session) {
    DistinctIds(s.history)
    && (s.activeId.Some? ==> s.activeId.value in Ids(s.history))
    && Mirrored(s)
    && (s.state.status == Idle ==> s.items == [] && s.activeId.None?)
    && (s.state.status == Error ==> s.activeId.None?)
  }

  /** A session starts in the invariant when the stored history has
      distinct ids. */
  lemma StartInv(saved: Option<string>, decode: string -> Option<seq<HistoryItem>>)
    requires DistinctIds(LoadHistory(saved, decode))
    ensures Inv(Start(saved, decode))
  {
  }

  /** Every allowed action keeps the invariant. */
  lemma DispatchKeepsInv(s: Session, a: Action, env: Env)
    requires Inv(s) && Allowed(s, a)
    ensures Inv(Dispatch(s, a, env))
  {
    match a
    case SelectFiles(files, docType, entryId, timestamp) =>
      FileSelectKeepsInv(s, files, docType, env, entryId, timestamp);
    case SelectHistory(entry) =>
      var r := HandleHistorySelect(s, entry);
      var k :| 0 <= k < |s.history| && s.history[k] == entry;
      assert Ids(s.history)[k] == entry.id;
    case DeleteHistory(id) =>
      DeleteHistoryKeepsInv(s, id);
    case NewUpload =>
    case EditCell(id, field, value) =>
    case DeleteRow(id) =>
  }

  lemma FileSelectKeepsInv(s: Session, files: seq<FileRef>, docType: DocumentType, env: Env, entryId: string, timestamp: int)
    requires Inv(s) && |files| > 0 && entryId !in Ids(s.history)
    ensures Inv(HandleFileSelect(s, files, docType, env, entryId, timestamp))
  {
    var r := HandleFileSelect(s, files, docType, env, entryId, timestamp);
    if Extract(files, docType, env).Success? {
      assert r.history == [r.history[0]] + s.history;
      assert Ids(r.history)[0] == entryId;
    }
  }

  /** A selection is only possible from an idle session, which holds no
      rows; so a failed extraction leaves an empty table with the error and
      the history as it was. */
  lemma FailedSelectionShowsNoRows(s: Session, files: seq<FileRef>, docType: DocumentType, env: Env, entryId: string, timestamp: int)
    requires Inv(s) && Allowed(s, SelectFiles(files, docType, entryId, timestamp))
    requires Extract(files, docType, env).Failure?
    ensures var r := Dispatch(s, SelectFiles(files, docType, entryId, timestamp), env);
      r.items == [] && r.state.status == Error && r.activeId.None? && r.history == s.history
  {
  }

  lemma DeleteHistoryKeepsInv(s: Session, id: string)
    requires Inv(s)
    ensures Inv(HandleDeleteHistory(s, id))
  {
    var r := HandleDeleteHistory(s, id);
    if s.activeId.Some? && s.activeId != Some(id) {
      var active := s.activeId.value;
      var k :| 0 <= k < |s.history| && s.history[k].id == active;
      assert s.history[k] in RemoveEntry(s.history, id);
      var j :| 0 <= j < |r.history| && r.history[j] == s.history[k];
      assert Ids(r.history)[j] == active;
    }
  }

  /** A whole run of allowed actions. */
  function Run(s: Session, actions: seq<Action>, env: Env): Option<Session>
    decreases |actions|
  {
    if |actions| == 0 then Some(s)
    else if !Allowed(s, actions[0]) then None
    else Run(Dispatch(s, actions[0], env), actions[1..], env)
  }

  /** Any run of allowed actions from a good start ends in the invariant:
      history ids stay distinct and the history always holds the rows the
      user sees for the active entry. */
  lemma {:induction false} RunKeepsInv(s: Session, actions: seq<Action>, env: Env)
    requires Inv(s)
    ensures Run(s, actions, env).Some? ==> Inv(Run(s, actions, env).value)
    decreases |actions|
  {
    if |actions| > 0 && Allowed(s, actions[0]) {
      DispatchKeepsInv(s, actions[0], env);
      RunKeepsInv(Dispatch(s, actions[0], env), actions[1..], env);
    }
  }
}
