/**
 * The decisions of the upload endpoint: a file is refused without a name,
 * with an extension outside the allow-list (400), or when it is larger than
 * the size limit (413), in that order; an accepted file is stored under a
 * name made from its identifier, classified, its text extracted, and
 * described in an `UploadResponse`. The disk write, the random identifier and
 * the file's decoded text and PDF pages are parameters.
 */
module Upload {

  import opened Wrappers
  import opened Exceptions
  import opened Text
  import opened Schemas
  import opened Parser

  const MAX_FILE_SIZE_MB: nat := 10
  const MAX_BYTES: nat := MAX_FILE_SIZE_MB * 1024 * 1024
  const ALLOWED_EXTENSIONS: seq<string> := ["pdf", "png", "jpg", "jpeg", "txt"]

  /** How a list of plain strings prints in an f-string: `['pdf', 'png']`. */
  function ListText(items: seq<string>): string {
    "[" + QuotedItems(items) + "]"
  }

  /** The items of `ListText`, each in single quotes, separated by `, `. */
  function QuotedItems(items: seq<string>): string {
    if |items| == 0 then ""
    else if |items| == 1 then "'" + items[0] + "'"
    else "'" + items[0] + "', " + QuotedItems(items[1..])
  }

  const NO_FILENAME: string := "No filename provided."
  const TEXT_EXTRACTED: string := "File uploaded successfully. Text extracted."
  const NO_TEXT: string :=
    "File uploaded successfully. Image/scanned PDF detected \U{2014} will use GPT-4 Vision for analysis."

  /** Why an upload gets no `UploadResponse`: an HTTP error the endpoint raises, or an exception that escapes it. */
  datatype UploadFailure =
    | HttpError(status: nat, detail: string)
    | Raised(exception: PyException)

  /** `filename.rsplit(".", 1)[-1].lower()` when the name has a dot, else "". */
  function UploadExtension(filename: string): (r: string)
    ensures '.' !in r
    ensures '.' !in filename ==> r == ""
  {
    match LastIndexOf(filename, '.')
    case None => ""
    case Some(i) =>
      LowerKeepsBelowA(filename[i + 1..], '.');
      Lower(filename[i + 1..])
  }

  /** The message for an extension outside the allow-list. */
  function UnsupportedDetail(ext: string): string {
    "Unsupported file type: ." + ext + ". Allowed: " + ListText(ALLOWED_EXTENSIONS)
  }

  /** The message for a file over the size limit. */
  function TooLargeDetail(): string {
    "File too large. Maximum allowed: " + NatToDecimal(MAX_FILE_SIZE_MB) + "MB"
  }

  /** The checks before the file is stored, in order; `None` when the file is accepted. */
  function ValidateUpload(filename: Option<string>, size: nat): (r: Option<UploadFailure>)
    ensures r.Some? ==> r.value.HttpError? && r.value.status in {400, 413}
  {
    if filename.None? || filename.value == "" then Some(HttpError(400, NO_FILENAME))
    else
      var ext := UploadExtension(filename.value);
      if ext !in ALLOWED_EXTENSIONS then Some(HttpError(400, UnsupportedDetail(ext)))
      else if size > MAX_BYTES then Some(HttpError(413, TooLargeDetail()))
      else None
  }

  /** The name the file is stored under. */
  function StoredFileName(fileId: string, filename: string): (r: string)
    ensures StartsWith(r, fileId + "_") && EndsWith(r, filename)
  {
    var r := fileId + "_" + filename;
    assert r[..|fileId + "_"|] == fileId + "_";
    assert r[|r| - |filename|..] == filename;
    r
  }

  /** The message of the response: `Text extracted.` exactly when there is a non-empty text. */
  function UploadMessage(extractedText: Option<string>): string {
    if extractedText.Some? && extractedText.value != "" then TEXT_EXTRACTED else NO_TEXT
  }

  /**
   * `upload_report` from the request to the response. `contents` are the
   * uploaded bytes; `pages` and `text` are what the PDF library and the text
   * reader give for the stored file.
   */
  function UploadReport(filename: Option<string>, contents: seq<bv8>, fileId: string, pages: seq<string>, text: string)
    : (r: Result<UploadResponse, UploadFailure>)
  {
    match ValidateUpload(filename, |contents|)
    case Some(failure) => Failure(failure)
    case None =>
      var name := filename.value;
      match DetectFileType(name)
      case Failure(e) => Failure(Raised(e))
      case Success(fileType) =>
        match ExtractText(name, pages, text)
        case Failure(e) => Failure(Raised(e))
        case Success(extracted) =>
          Success(UploadResponse(fileId, name, fileType.Value(), |contents|, extracted, UploadMessage(extracted)))
  }

  // ------------------------------------------------------------- properties

  /** The size limit is ten mebibytes. */
  lemma MaxBytesValue()
    ensures MAX_BYTES == 10485760
  {
  }

  /** The message for a file over the limit. */
  lemma TooLargeText()
    ensures TooLargeDetail() == "File too large. Maximum allowed: 10MB"
  {
    assert NatToDecimal(10) == "10";
  }

  /** The message for an extension outside the allow-list. */
  lemma UnsupportedText(ext: string)
    ensures UnsupportedDetail(ext)
         == "Unsupported file type: ." + ext + ". Allowed: "
          + "['" + "pdf" + "', '" + "png" + "', '" + "jpg" + "', '" + "jpeg" + "', '" + "txt" + "']"
  {
    AllowedListText();
  }

  /** Quoting a list of two or more items quotes the first and adds `, ` before the rest. */
  lemma {:induction false} QuotedItemsCons(x: string, rest: seq<string>)
    requires |rest| > 0
    ensures QuotedItems([x] + rest) == "'" + x + "', " + QuotedItems(rest)
  {
    assert ([x] + rest)[1..] == rest;
  }

  /** The allow-list prints as Python prints it. */
  lemma AllowedListText()
    ensures ListText(ALLOWED_EXTENSIONS)
         == "['" + "pdf" + "', '" + "png" + "', '" + "jpg" + "', '" + "jpeg" + "', '" + "txt" + "']"
  {
    QuotedItemsCons("jpeg", ["txt"]);
    QuotedItemsCons("jpg", ["jpeg", "txt"]);
    QuotedItemsCons("png", ["jpg", "jpeg", "txt"]);
    QuotedItemsCons("pdf", ["png", "jpg", "jpeg", "txt"]);
  }

  /** A missing or empty name is refused first, whatever the size. */
  lemma NoFilenameRejectedFirst(filename: Option<string>, size: nat)
    requires filename.None? || filename.value == ""
    ensures ValidateUpload(filename, size) == Some(HttpError(400, NO_FILENAME))
  {
  }

  /** The extension is the text after the last dot, lowercased, or "" when there is no dot. */
  lemma UploadExtensionIsLastPart(filename: string, i: nat)
    requires i < |filename| && filename[i] == '.' && '.' !in filename[i + 1..]
    ensures UploadExtension(filename) == Lower(filename[i + 1..])
  {
  }

  /** An extension outside the allow-list is refused before the size is looked at. */
  lemma ExtensionCheckedBeforeSize(filename: string, size: nat)
    requires filename != "" && UploadExtension(filename) !in ALLOWED_EXTENSIONS
    ensures ValidateUpload(Some(filename), size) == Some(HttpError(400, UnsupportedDetail(UploadExtension(filename))))
  {
  }

  /** A named file with an allowed extension is refused exactly when it is larger than the limit; one of exactly the limit passes. */
  lemma SizeLimit(filename: string, size: nat)
    requires filename != "" && UploadExtension(filename) in ALLOWED_EXTENSIONS
    ensures ValidateUpload(Some(filename), size).Some? <==> size > 10485760
    ensures size > 10485760 ==> ValidateUpload(Some(filename), size) == Some(HttpError(413, TooLargeDetail()))
    ensures ValidateUpload(Some(filename), 10485760) == None
  {
  }

  /** A file is accepted exactly when it has a name, an allowed extension and a size within the limit. */
  lemma ValidateAcceptsIff(filename: Option<string>, size: nat)
    ensures ValidateUpload(filename, size).None? <==>
      filename.Some? && filename.value != "" && UploadExtension(filename.value) in ALLOWED_EXTENSIONS && size <= MAX_BYTES
  {
  }

  /** For a name without a directory whose last dot neither starts nor ends it, both extension rules agree. */
  lemma UploadExtensionIsSuffix(filename: string, i: nat)
    requires '/' !in filename && 0 < i < |filename| - 1 && filename[i] == '.' && '.' !in filename[i + 1..]
    ensures UploadExtension(filename) == Extension(filename)
  {
    UploadExtensionIsLastPart(filename, i);
    BaseNameOfName(filename);
  }

  /** The stored name determines the identifier and the file name when identifiers have one length, as UUIDs do. */
  lemma StoredFileNameInjective(id1: string, name1: string, id2: string, name2: string)
    requires |id1| == |id2| && StoredFileName(id1, name1) == StoredFileName(id2, name2)
    ensures id1 == id2 && name1 == name2
  {
    var s := StoredFileName(id1, name1);
    assert id1 == s[..|id1|] == id2;
    assert name1 == s[|id1| + 1..] == name2;
  }

  /** The message says text was extracted exactly when the extracted text is present and non-empty. */
  lemma MessageChoice(extractedText: Option<string>)
    ensures UploadMessage(extractedText) == TEXT_EXTRACTED <==> extractedText.Some? && extractedText.value != ""
    ensures UploadMessage(extractedText) == TEXT_EXTRACTED || UploadMessage(extractedText) == NO_TEXT
  {
    assert TEXT_EXTRACTED != NO_TEXT by {
      assert |TEXT_EXTRACTED| != |NO_TEXT|;
    }
  }

  /**
   * An accepted file yields a response exactly when its name classifies;
   * the response echoes the name, gives the byte count, the file type, the
   * extracted text and the message chosen by that text.
   */
  lemma UploadFields(filename: Option<string>, contents: seq<bv8>, fileId: string, pages: seq<string>, text: string)
    ensures UploadReport(filename, contents, fileId, pages, text).Success? <==>
      ValidateUpload(filename, |contents|).None? && DetectFileType(filename.value).Success?
    ensures ValidateUpload(filename, |contents|).Some? ==>
      UploadReport(filename, contents, fileId, pages, text) == Failure(ValidateUpload(filename, |contents|).value)
    ensures UploadReport(filename, contents, fileId, pages, text).Success? ==>
      var r := UploadReport(filename, contents, fileId, pages, text).value;
      && r.fileId == fileId && r.filename == filename.value && r.fileSizeBytes == |contents|
      && r.fileType == DetectFileType(filename.value).value.Value()
      && r.extractedText == ExtractText(filename.value, pages, text).value
      && r.message == UploadMessage(r.extractedText)
  {
  }

  /** An image gets no text and the vision message; a text file gets its content. */
  lemma UploadByType(filename: string, contents: seq<bv8>, fileId: string, pages: seq<string>, text: string)
    requires ValidateUpload(Some(filename), |contents|).None?
    ensures DetectFileType(filename) == Success(Image) ==>
      && UploadReport(Some(filename), contents, fileId, pages, text).Success?
      && UploadReport(Some(filename), contents, fileId, pages, text).value.extractedText == None
      && UploadReport(Some(filename), contents, fileId, pages, text).value.message == NO_TEXT
    ensures DetectFileType(filename) == Success(TextFile) ==>
      && UploadReport(Some(filename), contents, fileId, pages, text).Success?
      && UploadReport(Some(filename), contents, fileId, pages, text).value.extractedText == Some(text)
  {
    ExtractByType(filename, pages, text);
  }

  /** ".pdf" passes the checks, since its text after the last dot is "pdf". */
  lemma DotFilePassesChecks(size: nat)
    requires size <= MAX_BYTES
    ensures ValidateUpload(Some(".pdf"), size) == None
  {
    UploadExtensionIsLastPart(".pdf", 0);
    assert ".pdf"[1..] == "pdf";
    assert Lower("pdf") == "pdf";
    assert "pdf" == ALLOWED_EXTENSIONS[0];
  }

  /** ".pdf" has no suffix, so once it has passed the checks and been stored, classifying it raises. */
  lemma DotFileRaises(contents: seq<bv8>, fileId: string, pages: seq<string>, text: string)
    requires |contents| <= MAX_BYTES
    ensures UploadReport(Some(".pdf"), contents, fileId, pages, text)
         == Failure(Raised(ValueError("Unsupported file type: .")))
  {
    DotFilePassesChecks(|contents|);
    DetectDotFile();
  }
}
