/** Batch validation of the upload area (components/UploadArea.tsx): a batch
    of at most three image or PDF files is handed on, with the document type
    chosen in the selector; anything else raises an alert and is dropped
    whole. */
module Upload {
  import opened Basics
  import opened Types

  /** A chosen file: its name and its MIME type (`File.type`). */
  datatype FileRef = FileRef(name: string, mimeType: string)

  /** The largest batch accepted at once. */
  const MaxBatch: nat := 3

  const TooManyFilesAlert: string := "You can only upload up to 3 documents at a time."
  const WrongTypeAlert: string := "Only images (JPG, PNG) and PDF files are allowed."

  /** The selector starts on BOM. */
  const InitialSelectedType: DocumentType := BOM

  /** An image of any kind, or a PDF. */
  predicate Accepted(f: FileRef) {
    StartsWith(f.mimeType, "image/") || f.mimeType == "application/pdf"
  }

  function IsAccepted(): FileRef -> bool {
    (f: FileRef) => Accepted(f)
  }

  /** What a batch leads to: an alert, nothing at all, or the files handed to
      the application together with a document type. */
  datatype Outcome = Alerted(message: string) | Ignored | Selected(files: seq<FileRef>, docType: DocumentType)

  /** `validateAndPass`: the count is checked first, then every file's type
      (the accepted files are filtered out and counted), and only a
      non-empty batch is handed on. */
  function ValidateAndPass(files: seq<FileRef>, selectedType: DocumentType): (r: Outcome)
    ensures r.Selected? <==> 0 < |files| <= MaxBatch && forall i :: 0 <= i < |files| ==> Accepted(files[i])
    ensures r.Selected? ==> r.files == files && r.docType == selectedType
    ensures |files| > MaxBatch ==> r == Alerted(TooManyFilesAlert)
    ensures |files| <= MaxBatch && (exists i :: 0 <= i < |files| && !Accepted(files[i])) ==> r == Alerted(WrongTypeAlert)
    ensures r == Ignored <==> |files| == 0
  {
    FilterKeepsAll(files, IsAccepted());
    if |files| > MaxBatch then Alerted(TooManyFilesAlert)
    else
      var valid := Filter(files, IsAccepted());
      if |valid| != |files| then Alerted(WrongTypeAlert)
      else if |valid| > 0 then Selected(valid, selectedType)
      else Ignored
  }

  /** A batch that passes still passes, unchanged, when one of its files is
      taken away, as long as one is left. */
  lemma ShrinkingKeepsPassing(files: seq<FileRef>, selectedType: DocumentType, k: nat)
    requires ValidateAndPass(files, selectedType).Selected?
    requires k < |files| && |files| > 1
    ensures ValidateAndPass(files[..k] + files[k + 1..], selectedType) == Selected(files[..k] + files[k + 1..], selectedType)
  {
    var rest := files[..k] + files[k + 1..];
    forall i | 0 <= i < |rest| ensures Accepted(rest[i]) {
      if i < k {
        assert rest[i] == files[i];
      } else {
        assert rest[i] == files[i + 1];
      }
    }
  }

  /** The state of the selector; the chosen type is what `ValidateAndPass`
      hands on. */
  datatype UploadArea = UploadArea(selectedType: DocumentType)

  function InitialUploadArea(): UploadArea {
    UploadArea(InitialSelectedType)
  }

  /** Before any type is picked, an acceptable batch goes on as a BOM. */
  lemma UntouchedSelectorPassesBom(files: seq<FileRef>)
    requires 0 < |files| <= MaxBatch
    requires forall i :: 0 <= i < |files| ==> Accepted(files[i])
    ensures ValidateAndPass(files, InitialUploadArea().selectedType) == Selected(files, BOM)
  {
  }
}
