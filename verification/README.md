# DocDigitizer core, modelled in Dafny

DocDigitizer is a browser application. It turns photographed or scanned
business documents into editable tables. The supported documents are a Bill of
Materials (BOM), an invoice, a purchase order, or a generic document (OTHER).

For one session, the application works as follows:
- The user picks up to three image or PDF files and a document type.
- The files are sent to a generative model, together with the type's prompt and a JSON output schema.
- The returned rows get fresh ids, are shown in an editable table and are recorded as a history entry.
- Edits of the table are mirrored into that entry.
- The table can be exported as CSV.

This project models that core as immutable datatypes and pure functions, and
proves the properties below.

| file | module | models |
|---|---|---|
| basics.dfy | `Basics` | Option/Result, join/split, decimal digits, filter and subsequence |
| types.dfy | `Types` | the shared records of types.ts |
| registry.dfy | `Registry` | the built-in per-type configurations (`DEFAULT_CONFIGS`) |
| schemas.dfy | `Schemas` | the structured-output schemas (`SCHEMAS`) |
| csv.dfy | `Csv` | the CSV writer of `handleExport`, plus a reader for its dialect |
| items.dfy | `Items` | editing one field and deleting rows of the active record set |
| history.dfy | `History` | prepending, mirroring, deleting and loading history entries |
| table.dfy | `Table` | the results table: width record, resize, table width, cells, edit events |
| upload.dfy | `Upload` | the batch validation of the upload area |
| gemini_service.dfy | `GeminiService` | request construction, id assignment and error mapping of `transcribeDocument` |
| admin.dfy | `Admin` | the admin dialog's prompt editing, save and reset |
| app.dfy | `App` | the session state machine of App.tsx and its invariant |
| export_example.dfy | `ExportExample` | a worked one-row BOM export |

The outside world is passed in as parameters:
- the file reader (base64 content and preview of a file);
- the model call, as a function from request to reply;
- `JSON.parse`, as a function from text to a JSON shape;
- `crypto.randomUUID`, as a numbered id generator, plus the entry id of a selection;
- `Date.now`;
- the stored history text and its decoder;
- the API key.

A JavaScript record keyed by strings is a Dafny `map<string, string>`. The
table's width record is the exception: it is an insertion-ordered list of
entries, because its values are summed.

Every `x || default` in the source is written out as an explicit test. The only
falsy string is `""`, and the only falsy integer is `0`. NaN, the other falsy
number, arises only in the drag case listed under `Table.Resize` below.

Some consequences of the code that the model makes explicit:
- **Admin edits never reach an extraction.** `handleFileSelect` and `handleExport` always read the built-in configurations (App.tsx:134-135, 204-205). App.tsx never shows the admin dialog. So the admin dialog is modelled on its own, and `App` always uses `Registry.DefaultConfig`.
- **The admin dialog only replaces prompts.** It has no way to edit a column list, and `Admin.RunKeepsColumns` proves that the columns never change.
- **Files are chosen only from an idle session.** The upload area is rendered only while the status is idle (App.tsx:239-249), so `App.Allowed` permits a selection only then. An idle session has no rows and nothing active, so a failed extraction shows an empty table (`App.FailedSelectionShowsNoRows`).
- **The error state is left through "new upload" or a history selection.** Deleting the active history entry also starts over.
- **"New upload" keeps the chosen document type.**

## Model

| member | source | states |
|---|---|---|
| Registry.DefaultConfig | App.tsx:10-68 | every one of the four types has a configuration tagged with that type, with a non-empty column list whose keys are pairwise distinct |
| Registry.ColumnsAvoidReservedKeys | App.tsx:10-68 | no built-in column key is `id` (the row identifier) or `action` (the delete column's width slot), and every minimum width is positive |
| Registry.HeadersArePlainText | App.tsx:10-68 | no built-in column label contains a comma, line break or double quote, so the unquoted CSV header is unambiguous |
| Schemas.SchemaMatchesColumns | services/geminiService.ts:13-70 | for every type the schema's property names are exactly the registry's column keys of that type, in the same order, and every property is typed as a string rather than a number, integer or boolean |
| Schemas.RequiredAreProperties | services/geminiService.ts:13-70 | every required name is one of the schema's properties; exactly OTHER has no required list |
| Csv.Escape | App.tsx:208 | doubling the quotes lengthens a value by its number of quotes, and in the result quotes only occur in adjacent pairs |
| Csv.UnquoteQuote | App.tsx:208 | stripping the outer quotes of a written field and collapsing `""` to `"` gives back the original value |
| Csv.EscapeWithoutQuotes | App.tsx:208 | a value without double quotes is written unchanged between the quotes |
| Csv.Export | App.tsx:201-211 | an empty row list exports nothing; otherwise the text starts with the header line and a line feed |
| Csv.ExportRoundTrip | App.tsx:201-211 | for at least one column and labels without comma or line break, reading an export back gives the column labels in column order and, row by row in item order, each item's value per column, with a missing key read as "" |
| Csv.ExportLines | App.tsx:206-211 | when no label or value holds a line break, the export splits into exactly the header line and one line per item, with no trailing line |
| Items.UpdateItem | App.tsx:191-195 | length and order are kept; rows with the id get the field set to the value; every other field of every row, and every row without the id, is unchanged |
| Items.LastEditWins | App.tsx:191-195 | two edits of the same field of the same rows leave what the last edit alone leaves |
| Items.EditsOfDifferentFieldsCommute | App.tsx:191-195 | edits of two different fields can be applied in either order |
| Items.DeleteItem | App.tsx:197-199 | exactly the rows with the id disappear, every other row stays with its multiplicity, and the survivors keep their relative order |
| Items.DeleteTwice | App.tsx:197-199 | deleting the same id twice is the same as deleting it once |
| Items.DeleteAbsent | App.tsx:197-199 | deleting an id no row has changes nothing |
| Items.DeleteOneRow | App.tsx:197-199 | with distinct ids, deleting the id of row k leaves the list with exactly row k cut out |
| History.Record | App.tsx:156 | the new entry comes first and the old entries follow unchanged; a fresh id keeps the ids distinct |
| History.MirrorItems | App.tsx:98-100 | only entries with the given id get the new rows; no entry is added, removed or reordered, and ids, time stamps, labels and types are kept |
| History.MirrorAbsentIsNoOp | App.tsx:96-102 | mirroring into an id no entry has leaves the history unchanged |
| History.MirrorSameIsNoOp | App.tsx:96-102 | mirroring rows the entry already holds leaves the history unchanged |
| History.RemoveEntry | App.tsx:177 | exactly the entries with the id disappear, every other entry stays with its multiplicity and keeps its order, and distinct ids stay distinct |
| History.LoadHistory | App.tsx:82-89 | no stored text, an empty one, or text that does not decode gives the empty history; otherwise the decoded history |
| History.ReloadRestores | App.tsx:82-93 | a history stored as non-empty text is loaded back unchanged when the decoder inverts the encoder |
| Table.Assign | components/BOMTable.tsx:19-22 | after setting a width the key holds it, every other key reads as before, keys stay unique and the total moves by the difference |
| Table.InitialWidthsLookup | components/BOMTable.tsx:16-24 | initially `action` is 70 wide, and every other key has the minimum width of the last column with that key, or no width at all |
| Table.InitialColumnWidth | components/BOMTable.tsx:16-24 | with distinct keys, each column (other than `action`) initially renders at its own minimum width |
| Table.InitialTotal | components/BOMTable.tsx:16-24 | with distinct keys and no `action` column, the initial total is the sum of the minimum widths plus 70 |
| Table.DefaultInitialTotal | components/BOMTable.tsx:16-24 | for every built-in column list the initial total is the sum of its minimum widths plus 70 |
| Table.BomInitialTotal | components/BOMTable.tsx:16-24 | the BOM table starts 780 wide |
| Table.Resize | components/BOMTable.tsx:51-54 | the dragged column becomes max(50, start width + delta), so never below 50; every other width is unchanged and the total moves by the difference |
| Table.LatestMoveWins | components/BOMTable.tsx:45-54 | within one drag only the latest mouse move counts |
| Table.TableWidth | components/BOMTable.tsx:69-81 | the rendered width is the total of all widths, but at least 100 |
| Table.ColumnWidth | components/BOMTable.tsx:86 | a column renders at its stored width unless that is absent or 0, then at its minimum width |
| Table.ActionColumnWidth | components/BOMTable.tsx:88 | the action column renders at its stored width unless that is absent or 0, then at 70 |
| Table.View | components/BOMTable.tsx:66-131 | an empty list renders nothing; otherwise one row per item in order, numbered from 1, carrying the item's id, each cell showing the item's value or "" |
| Table.CellEditShows | components/BOMTable.tsx:128-131 | applying the edit a cell reports makes that cell show the new text and leaves the row's other cells and every row with another id unchanged |
| Upload.ValidateAndPass | components/UploadArea.tsx:38-55 | a batch is handed on, unchanged and with the selected type, exactly when it has 1 to 3 files, all images or PDFs; more than 3 gives the count alert before any type check; a bad type gives the type alert; an empty batch does nothing |
| Upload.ShrinkingKeepsPassing | components/UploadArea.tsx:41-53 | removing one file from a passing batch of several leaves a batch that passes unchanged |
| Upload.UntouchedSelectorPassesBom | components/UploadArea.tsx:11-53 | before a type is picked, an acceptable batch is handed on as BOM |
| GeminiService.Instruction | services/geminiService.ts:99-103 | the instruction is the custom prompt followed by the fixed consolidation and JSON directive |
| GeminiService.BuildRequest | services/geminiService.ts:86-112 | one inline part per file in file order, then the instruction text; the model, JSON output type and the type's schema are set |
| GeminiService.RequestCarriesFiles | services/geminiService.ts:86-97 | only the last part is text, and the files can be read back from the parts in order |
| GeminiService.AssignIds | services/geminiService.ts:120-123 | same length and order as the parsed array; each row keeps every parsed field except `id`, which is the generated id |
| GeminiService.AssignIdsKeepsFields | services/geminiService.ts:120-123 | removing the ids again gives back the parsed elements without their own ids |
| GeminiService.AssignIdsDistinct | services/geminiService.ts:120-123 | ids are pairwise distinct when the generator never repeats itself, whatever ids the model returned |
| GeminiService.Transcribe | services/geminiService.ts:77-128 | a missing or empty key fails with its own message, exactly then; every other failure is the fixed message; a reply without text is the empty list |
| GeminiService.TranscribeOutcomes | services/geminiService.ts:114-128 | with a key, a failed call or a non-array parse is the fixed failure, a reply without text is the empty list, and an array becomes its elements with fresh ids |
| GeminiService.TranscribeDistinctIds | services/geminiService.ts:114-123 | a successful result has pairwise distinct ids when the generator never repeats itself |
| Admin.DefaultConfigs | App.tsx:10-68 | the built-in table gives each type its own built-in configuration |
| Admin.PromptChange | components/AdminSettings.tsx:15-23 | only the active tab's prompt changes; its type, title and columns stay, and every other type is untouched |
| Admin.LastPromptWins | components/AdminSettings.tsx:15-23 | two prompt edits leave what the last alone leaves, and repeating an edit changes nothing |
| Admin.RunKeepsColumns | components/AdminSettings.tsx:12-23 | after any sequence of tab switches and prompt edits every type keeps its columns, tag and title |
| Admin.SaveHandsOverEdit | components/AdminSettings.tsx:25-28 | saving hands the edited table to the host and then closes |
| Admin.Reset | components/AdminSettings.tsx:89-91 | the reset request is issued once, exactly when the user confirms, and nothing else happens |
| Admin.SavedColumnsUnchanged | components/AdminSettings.tsx:12-28 | a table saved after any edits of the built-in one still has each type's tag and built-in columns; saving without edits hands the table back unchanged |
| App.Sync | App.tsx:96-102 | the effect changes only the history: exactly the entries with the active id receive the active rows, and every other entry and every other field stays; ids are kept and afterwards the active entry holds the active rows; without an active non-empty id and a complete status it changes nothing |
| App.SyncMirroredIsNoOp | App.tsx:96-102 | once the active entry holds the active rows, the effect changes nothing |
| App.FileNameLabel | App.tsx:145-147 | the label is the file name for one file, and otherwise the first name followed by " +" and a non-empty count (whose digits `App.FileNameLabelCount` fixes) |
| App.FileNameLabelCount | App.tsx:145-147 | the characters after " +" are decimal digits without a leading zero that read back as the number of further files |
| App.ErrorMessage | App.tsx:159-164 | the error's own message when it has a non-empty one, otherwise `Unknown error occurred` |
| App.ReadAll | App.tsx:112-137 | one service input per file in order, carrying the file's own MIME type |
| App.Previews | App.tsx:129 | one preview per file in order |
| App.FileSelectSteps | App.tsx:105-131 | a selection first uploads (nothing active, rows and history kept) and then processes, announcing the count and type and showing previews |
| App.FileSelectOutcome | App.tsx:133-164 | the selection ends complete exactly when the extraction succeeds, otherwise in error |
| App.HandleFileSelect | App.tsx:105-165 | on success the rows are shown, the status is complete, and one new first entry is recorded with the fresh id, label, type, time stamp and rows, and made active (older entries untouched when the id is fresh); on failure the status is error with the message, nothing is active, and rows and history stay |
| App.FileSelectFailureMessage | App.tsx:159-164 | a failed selection shows the missing-key message when there is no key, and the fixed failure message otherwise |
| App.SelectedBatchIsNonEmpty | components/UploadArea.tsx:52-53 | every batch the upload area hands on is non-empty, as a selection requires |
| App.HandleHistorySelect | App.tsx:167-174 | the entry's rows and type come back (BOM for a missing type), files and previews are cleared, the entry is active and the status complete; the history is unchanged for an entry of a history with distinct ids |
| App.HandleNewUpload | App.tsx:183-189 | idle, with no files, previews or rows and nothing active; the history and the chosen type stay |
| App.HandleDeleteHistory | App.tsx:176-181 | the id leaves the history; deleting the active entry starts over; otherwise the session is unchanged |
| App.HandleUpdateItem | App.tsx:191-195 | the rows get the edit and nothing else in the session changes except the history; while an entry is active and complete, exactly that entry receives the edited rows; otherwise the history is untouched |
| App.HandleDeleteItem | App.tsx:197-199 | the rows lose the id and nothing else in the session changes except the history; while an entry is active and complete, exactly that entry receives the remaining rows; otherwise the history is untouched |
| App.HandleExport | App.tsx:201-211 | nothing for an empty table; otherwise the CSV starting with the header of the current type's built-in columns |
| App.HandleExportReadsBack | App.tsx:201-211 | every export of a non-empty table reads back as the current type's labels and the rows' values in its columns |
| App.ExportFileName | App.tsx:216 | the download name is the type, "_Export_", the date part of the time stamp and ".csv" |
| App.StartInv | App.tsx:72-89 | a session loaded from a history with distinct ids starts in the invariant |
| App.DispatchKeepsInv | App.tsx:96-199 | every action the interface allows keeps the invariant; file selection is allowed only from idle (App.tsx:239-249) |
| App.FileSelectKeepsInv | App.tsx:105-165 | a selection with a fresh entry id keeps the invariant |
| App.FailedSelectionShowsNoRows | App.tsx:159-164 | a selection the interface allows starts from idle, so when the extraction fails it leaves no rows, nothing active, the error status and the history as it was |
| App.DeleteHistoryKeepsInv | App.tsx:176-181 | deleting a history entry keeps the invariant |
| App.RunKeepsInv | App.tsx:96-199 | any run of allowed actions keeps the invariant: history ids stay distinct, an active id names an entry holding the visible rows, an idle session has no rows and nothing active, and a failed one has nothing active |
| ExportExample.BomExport | App.tsx:201-211 | the BOM row 100, Bolt, 5, ea, "" exports as `Part #,Description,Qty,Unit,Notes`, a line feed, and `"100","Bolt","5","ea",""` |

## Left out

- Rendering, styling and layout are left out, including the header, the history sidebar and the table markup. The only value the sidebar derives from an entry's rows is `items.length`.
- Reading files and splitting data URLs (App.tsx:112-128) are browser I/O: the reader is a parameter that yields the base64 content and the preview of a file.
- The model call and its client are external; the call is a parameter from request to reply.
- The `temperature: 0.1` setting of the request is floating point and is not modelled.
- `JSON.parse` is a parameter yielding an array of string-valued objects, a non-array value, or a syntax error.
- Writing the history to storage (App.tsx:91-93) is an external side effect. Only loading is modelled, with the decoder as a parameter.
- `crypto.randomUUID` and `Date.now` are parameters. The download itself (Blob, object URL, anchor click) is left out; only its file name is modelled, with the ISO time stamp as a parameter.
- The mouse handling of a drag (listeners, cursor, `pageX`) is left out. Only the width arithmetic is kept, with integer widths and deltas.
- React effect scheduling and interleaved handlers are not modelled, for example a second selection while one is still processing. Each handler runs to completion and is followed by the sync effect.
- Prompt texts are carried as constants but nothing is proved about their wording.
- GeminiService.Transcribe: array elements that are not objects, and values that are not strings, are not modelled. The spread of a string or number element has JavaScript-specific results.
- History.LoadHistory: stored JSON that parses to something other than an array of entries is not modelled; the decoder decides what decodes.
- App.HandleFileSelect: requires a non-empty batch. The only caller never passes an empty one (`App.SelectedBatchIsNonEmpty`). With an empty batch the source would fail computing the label, with a runtime TypeError message that the model does not name.
- Table.Resize: the start width is an integer. The case of a drag on a key absent from the record is not modelled; in the source that yields NaN.
- App.HandleDeleteHistory: the history after a delete is stated exactly only for a session whose active entry already holds the active rows, which `App.Inv` guarantees.
- Csv.ExportRoundTrip: stated only for labels without a comma or line break, which every built-in label satisfies (`Registry.HeadersArePlainText`); the header line is written unquoted, so other labels would not read back.
- Table.InitialTotal: stated for distinct keys and no column named `action`. `InitialWidthsLookup` covers repeated keys in general.
- The admin dialog's reset only asks its host to reset; restoring the defaults is the host's job, and no host exists in App.tsx.
