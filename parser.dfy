/**
 * How an uploaded file is classified and how its text is obtained: the type
 * comes from the extension of the file name, a PDF's text is assembled page by
 * page, a text file's text is its content, and an image has none (it is read
 * by the vision model instead). The PDF library and the file system are
 * replaced by their results: the list of page texts and the file's content.
 */
module Parser {

  import opened Wrappers
  import opened Exceptions
  import opened Text

  /** The three kinds of file the service accepts. */
  datatype FileType = Pdf | Image | TextFile {

    /** The name `detect_file_type` returns. */
    function Value(): string {
      match this
      case Pdf => "pdf"
      case Image => "image"
      case TextFile => "text"
    }
  }

  // ------------------------------------------------------------ file names

  /**
   * `Path(p).name`: the last component of a `/`-separated path, where empty
   * components and "." components do not count.
   */
  function BaseName(path: string): (r: string)
    ensures '/' !in r
    decreases |path|
  {
    match LastIndexOf(path, '/')
    case None => if path == "." then "" else path
    case Some(i) =>
      var last := path[i + 1..];
      if last == "" || last == "." then BaseName(path[..i]) else last
  }

  /**
   * `Path(filename).suffix.lower().lstrip(".")`: the text after the last dot
   * of the name, lowercased, when that dot neither starts nor ends the name;
   * otherwise there is no suffix.
   */
  function Extension(filename: string): (r: string)
    ensures '.' !in r
  {
    var name := BaseName(filename);
    match LastIndexOf(name, '.')
    case None => ""
    case Some(i) =>
      if 0 < i < |name| - 1 then
        LowerKeepsBelowA(name[i + 1..], '.');
        Lower(name[i + 1..])
      else ""
  }

  /** `detect_file_type`: classify by extension; any other extension raises `ValueError`. */
  function DetectFileType(filename: string): (r: Result<FileType, PyException>)
    ensures r == Success(Pdf) <==> Extension(filename) == "pdf"
    ensures r == Success(Image) <==> Extension(filename) in {"png", "jpg", "jpeg"}
    ensures r == Success(TextFile) <==> Extension(filename) == "txt"
    ensures r.Failure? <==> Extension(filename) !in {"pdf", "png", "jpg", "jpeg", "txt"}
    ensures r.Failure? ==> r.error == ValueError("Unsupported file type: ." + Extension(filename))
  {
    var ext := Extension(filename);
    if ext == "pdf" then Success(Pdf)
    else if ext in {"png", "jpg", "jpeg"} then Success(Image)
    else if ext == "txt" then Success(TextFile)
    else Failure(ValueError("Unsupported file type: ." + ext))
  }

  /** Lowercasing a path keeps its last component, lowercased. */
  lemma {:induction false} BaseNameLower(path: string)
    ensures BaseName(Lower(path)) == Lower(BaseName(path))
    decreases |path|
  {
    LastIndexOfLower(path, '/');
    match LastIndexOf(path, '/')
    case None =>
      LowerIsDot(path);
    case Some(i) =>
      var last := path[i + 1..];
      assert Lower(path)[i + 1..] == Lower(last);
      assert Lower(path)[..i] == Lower(path[..i]);
      LowerIsDot(last);
      assert Lower(last) == "" <==> last == "";
      BaseNameLower(path[..i]);
  }

  /** The file type does not depend on the letter case of the name: "SCAN.JPG" is an image. */
  lemma DetectIgnoresCase(filename: string)
    ensures DetectFileType(Lower(filename)) == DetectFileType(filename)
  {
    BaseNameLower(filename);
    var name := BaseName(filename);
    LastIndexOfLower(name, '.');
    match LastIndexOf(name, '.')
    case None =>
    case Some(i) =>
      assert Lower(name)[i + 1..] == Lower(name[i + 1..]);
      LowerIdempotent(name[i + 1..]);
  }

  /** A name without `/`, other than ".", is its own last component. */
  lemma BaseNameOfName(name: string)
    requires '/' !in name && name != "."
    ensures BaseName(name) == name
  {
  }

  /** The last component of `dir/name` is `name`. */
  lemma BaseNameOfPath(dir: string, name: string)
    requires '/' !in name && name != "" && name != "."
    ensures BaseName(dir + "/" + name) == name
  {
    LastIndexOfAfter(dir, '/', name);
    assert (dir + "/" + name)[|dir| + 1..] == name;
  }

  /** The suffix of `stem.ext`, for a non-empty stem and extension, is the extension lowercased. */
  lemma ExtensionOfName(stem: string, ext: string)
    requires '/' !in stem && '/' !in ext && '.' !in ext && |stem| > 0 && |ext| > 0
    ensures Extension(stem + "." + ext) == Lower(ext)
  {
    var name := stem + "." + ext;
    assert '/' !in name by {
      assert forall k | 0 <= k < |name| :: name[k] == (if k < |stem| then stem[k] else if k == |stem| then '.' else ext[k - |stem| - 1]);
    }
    BaseNameOfName(name);
    LastIndexOfAfter(stem, '.', ext);
    assert name[|stem| + 1..] == ext;
  }

  /** A name whose only dot comes first, such as ".pdf", has no suffix. */
  lemma ExtensionOfDotFile(ext: string)
    requires '/' !in ext && '.' !in ext
    ensures Extension("." + ext) == ""
  {
    var name := "." + ext;
    assert '/' !in name by {
      assert forall k | 0 <= k < |name| :: name[k] == (if k == 0 then '.' else ext[k - 1]);
    }
    if ext == "" {
      assert BaseName(name) == "";
    } else {
      BaseNameOfName(name);
      LastIndexOfAfter("", '.', ext);
      assert "" + "." + ext == name;
    }
  }

  /** The letter case of the extension does not matter: "SCAN.JPG" is an image. */
  lemma DetectUpperCaseImage(stem: string)
    requires '/' !in stem && |stem| > 0
    ensures DetectFileType(stem + ".JPG") == Success(Image)
  {
    ExtensionOfName(stem, "JPG");
    assert stem + "." + "JPG" == stem + ".JPG";
    assert Lower("JPG") == "jpg";
  }

  /** Only the last component of a path and its last dot count: "reports/2024.notes.txt" is a text file. */
  lemma DetectNestedText(dir: string, stem: string)
    requires '/' !in stem && |stem| > 0
    ensures DetectFileType(dir + "/" + stem + ".txt") == Success(TextFile)
  {
    var name := stem + ".txt";
    ExtensionOfName(stem, "txt");
    assert stem + "." + "txt" == name;
    assert '/' !in name by {
      assert forall k | 0 <= k < |name| :: name[k] == (if k < |stem| then stem[k] else ".txt"[k - |stem|]);
    }
    BaseNameOfPath(dir, name);
    assert dir + "/" + name == dir + "/" + stem + ".txt";
    assert Lower("txt") == "txt";
  }

  /** An unknown extension is refused with its name in the message. */
  lemma DetectUnknownExtension(stem: string)
    requires '/' !in stem && |stem| > 0
    ensures DetectFileType(stem + ".heic") == Failure(ValueError("Unsupported file type: .heic"))
  {
    ExtensionOfName(stem, "heic");
    assert stem + "." + "heic" == stem + ".heic";
    assert Lower("heic") == "heic";
    assert "heic" !in {"pdf", "png", "jpg", "jpeg", "txt"};
    assert "Unsupported file type: ." + "heic" == "Unsupported file type: .heic";
  }

  /** ".pdf" is refused. */
  lemma DetectDotFile()
    ensures DetectFileType(".pdf") == Failure(ValueError("Unsupported file type: ."))
  {
    ExtensionOfDotFile("pdf");
    assert "." + "pdf" == ".pdf";
    assert "Unsupported file type: ." + "" == "Unsupported file type: .";
  }

  // ------------------------------------------------------- PDF pages

  /** A page whose text strips to nothing. */
  predicate BlankPage(pageText: string) {
    Trim(pageText) == ""
  }

  /** What one non-blank page contributes: its 1-based number and its stripped text. */
  type PageEntry = (nat, string)

  /** The entries of the non-blank pages, in page order. */
  function PageEntries(pages: seq<string>): seq<PageEntry>
    decreases |pages|
  {
    if pages == [] then []
    else
      var n := |pages|;
      PageEntries(pages[..n - 1]) + (if BlankPage(pages[n - 1]) then [] else [(n, Trim(pages[n - 1]))])
  }

  /** One entry as `parse_pdf` writes it: a header line with the page number, then the text. */
  function Render(entry: PageEntry): string {
    "--- Page " + NatToDecimal(entry.0) + " ---\n" + entry.1
  }

  /** The rendered entries, in order. */
  function Rendered(entries: seq<PageEntry>): (r: seq<string>)
    ensures |r| == |entries| && forall k | 0 <= k < |entries| :: r[k] == Render(entries[k])
  {
    seq(|entries|, k requires 0 <= k < |entries| => Render(entries[k]))
  }

  /** Rendering one more entry appends its text. */
  lemma RenderedAppend(entries: seq<PageEntry>, entry: PageEntry)
    ensures Rendered(entries + [entry]) == Rendered(entries) + [Render(entry)]
  {
  }

  /** The text `parse_pdf` returns: the rendered entries joined by blank lines. */
  function PdfText(pages: seq<string>): string {
    Join(Rendered(PageEntries(pages)), "\n\n")
  }

  /** The loop of `parse_pdf` over the page texts. */
  method ParsePdf(pages: seq<string>) returns (text: string)
    ensures text == PdfText(pages)
  {
    var textParts: seq<string> := [];
    for i := 0 to |pages|
      invariant textParts == Rendered(PageEntries(pages[..i]))
    {
      assert pages[..i + 1][..i] == pages[..i];
      var pageText := pages[i];
      if Trim(pageText) != "" {
        RenderedAppend(PageEntries(pages[..i]), (i + 1, Trim(pageText)));
        textParts := textParts + [Render((i + 1, Trim(pageText)))];
      }
    }
    assert pages[..|pages|] == pages;
    text := Join(textParts, "\n\n");
  }

  /** Entry `k` is a non-blank page, under its own 1-based number and with its text stripped. */
  lemma {:induction false} EntryIsNonBlankPage(pages: seq<string>, k: nat)
    requires k < |PageEntries(pages)|
    ensures 1 <= PageEntries(pages)[k].0 <= |pages|
    ensures !BlankPage(pages[PageEntries(pages)[k].0 - 1])
    ensures PageEntries(pages)[k].1 == Trim(pages[PageEntries(pages)[k].0 - 1])
    decreases |pages|
  {
    var n := |pages|;
    var init := pages[..n - 1];
    var before := PageEntries(init);
    assert PageEntries(pages) == before + (if BlankPage(pages[n - 1]) then [] else [(n, Trim(pages[n - 1]))]);
    if k < |before| {
      EntryIsNonBlankPage(init, k);
      assert init[before[k].0 - 1] == pages[before[k].0 - 1];
    }
  }

  /** Every entry is a non-blank page, under its own 1-based number and with its text stripped. */
  lemma EntriesAreNonBlankPages(pages: seq<string>)
    ensures forall k | 0 <= k < |PageEntries(pages)| ::
      && 1 <= PageEntries(pages)[k].0 <= |pages|
      && !BlankPage(pages[PageEntries(pages)[k].0 - 1])
      && PageEntries(pages)[k].1 == Trim(pages[PageEntries(pages)[k].0 - 1])
  {
    forall k | 0 <= k < |PageEntries(pages)| {
      EntryIsNonBlankPage(pages, k);
    }
  }

  /** The numbers of the entries strictly increase. */
  lemma {:induction false} EntryNumbersIncrease(pages: seq<string>)
    ensures forall j, k | 0 <= j < k < |PageEntries(pages)| :: PageEntries(pages)[j].0 < PageEntries(pages)[k].0
    decreases |pages|
  {
    if pages != [] {
      var n := |pages|;
      var init := pages[..n - 1];
      EntryNumbersIncrease(init);
      EntriesAreNonBlankPages(init);
      var before := PageEntries(init);
      forall k | 0 <= k < |before|
        ensures PageEntries(pages)[k] == before[k] && before[k].0 < n
      {
      }
    }
  }

  /** Every non-blank page has an entry; blank pages have none but still use up their number. */
  lemma {:induction false} NonBlankPagesHaveEntries(pages: seq<string>, n: nat)
    requires 1 <= n <= |pages| && !BlankPage(pages[n - 1])
    ensures exists k | 0 <= k < |PageEntries(pages)| :: PageEntries(pages)[k].0 == n
    decreases |pages|
  {
    var init := pages[..|pages| - 1];
    var entries := PageEntries(pages);
    if n == |pages| {
      assert entries[|entries| - 1].0 == n;
    } else {
      assert init[n - 1] == pages[n - 1];
      NonBlankPagesHaveEntries(init, n);
      var k :| 0 <= k < |PageEntries(init)| && PageEntries(init)[k].0 == n;
      assert entries[k] == PageEntries(init)[k];
    }
  }

  /** The 0-based positions of the non-blank pages. */
  function NonBlankPositions(pages: seq<string>): set<nat> {
    set i: nat | i < |pages| && !BlankPage(pages[i])
  }

  /** The non-blank positions of a document are those of all but its last page, and the last one if it is non-blank. */
  lemma PositionsOfInit(pages: seq<string>)
    requires pages != []
    ensures var n := |pages|;
      NonBlankPositions(pages)
      == NonBlankPositions(pages[..n - 1]) + (if BlankPage(pages[n - 1]) then {} else {n - 1})
  {
    var n := |pages|;
    var init := pages[..n - 1];
    var last: set<nat> := if BlankPage(pages[n - 1]) then {} else {n - 1};
    forall i: nat | i in NonBlankPositions(pages)
      ensures i in NonBlankPositions(init) + last
    {
      if i < n - 1 {
        assert init[i] == pages[i];
      }
    }
    forall i: nat | i in NonBlankPositions(init) + last
      ensures i in NonBlankPositions(pages)
    {
      if i < n - 1 {
        assert init[i] == pages[i];
      }
    }
  }

  /** There are as many entries as non-blank pages. */
  lemma {:induction false} EntryCount(pages: seq<string>)
    ensures |PageEntries(pages)| == |NonBlankPositions(pages)|
    decreases |pages|
  {
    if pages == [] {
      assert NonBlankPositions(pages) == {};
    } else {
      var n := |pages|;
      var init := pages[..n - 1];
      EntryCount(init);
      PositionsOfInit(pages);
      var before := NonBlankPositions(init);
      var last := if BlankPage(pages[n - 1]) then [] else [(n, Trim(pages[n - 1]))];
      assert PageEntries(pages) == PageEntries(init) + last;
      if BlankPage(pages[n - 1]) {
        assert NonBlankPositions(pages) == before;
      } else {
        assert n - 1 !in before;
        assert NonBlankPositions(pages) == before + {n - 1};
      }
    }
  }

  /** There are no entries exactly when every page is blank. */
  lemma NoEntriesIffAllBlank(pages: seq<string>)
    ensures PageEntries(pages) == [] <==> forall i | 0 <= i < |pages| :: BlankPage(pages[i])
  {
    EntriesAreNonBlankPages(pages);
    if PageEntries(pages) == [] {
      forall i | 0 <= i < |pages| ensures BlankPage(pages[i]) {
        if !BlankPage(pages[i]) {
          NonBlankPagesHaveEntries(pages, i + 1);
        }
      }
    }
  }

  /** The assembled text is empty exactly when every page is blank, and blank exactly then too. */
  lemma PdfTextEmptyIffAllBlank(pages: seq<string>)
    ensures PdfText(pages) == "" <==> forall i | 0 <= i < |pages| :: BlankPage(pages[i])
    ensures BlankPage(PdfText(pages)) <==> forall i | 0 <= i < |pages| :: BlankPage(pages[i])
  {
    NoEntriesIffAllBlank(pages);
    var parts := Rendered(PageEntries(pages));
    if |parts| > 0 {
      assert StartsWith(parts[0], "-");
      JoinStartsWith(parts, "\n\n", "-");
      var t := PdfText(pages);
      assert t[0] == '-';
      TrimEmptyIffAllSpace(t);
    }
  }

  /** Two pages, the first blank: only the second has an entry, and it keeps its number. */
  lemma EntriesExample(blank: string, text: string)
    requires AllSpace(blank) && IsTrimmed(text) && text != ""
    ensures PageEntries([blank, " " + text + "\n"]) == [(2, text)]
  {
    var pages := [blank, " " + text + "\n"];
    TrimEmptyIffAllSpace(blank);
    assert BlankPage(pages[0]);
    TrimPadded(" ", text, "\n");
    assert Trim(pages[1]) == text && !BlankPage(pages[1]);
    var first := pages[..1];
    assert first[..0] == [] && first[0] == pages[0];
    assert PageEntries(first) == [];
    assert pages[..|pages| - 1] == first;
    assert PageEntries(pages) == [] + [(2, text)];
  }

  /** Pages with a single entry assemble to that entry's rendering. */
  lemma PdfTextOfOneEntry(pages: seq<string>, entry: PageEntry)
    requires PageEntries(pages) == [entry]
    ensures PdfText(pages) == Render(entry)
  {
    assert Rendered([entry]) == [Render(entry)];
  }

  /** The header of page 2. */
  lemma RenderPageTwo(text: string)
    ensures Render((2, text)) == "--- Page 2 ---\n" + text
  {
    assert NatToDecimal(2) == "2";
  }

  /** The text of those two pages is the second page's header and text. */
  lemma PdfTextExample(blank: string, text: string)
    requires AllSpace(blank) && IsTrimmed(text) && text != ""
    ensures PdfText([blank, " " + text + "\n"]) == "--- Page 2 ---\n" + text
  {
    EntriesExample(blank, text);
    PdfTextOfOneEntry([blank, " " + text + "\n"], (2, text));
    RenderPageTwo(text);
  }

  // ------------------------------------------------------- text extraction

  /**
   * `extract_text`: by file type, the assembled PDF text unless it is blank,
   * the content of a text file as it is, and nothing for an image. The
   * PDF's page texts and the text file's content are parameters.
   */
  function ExtractText(filename: string, pages: seq<string>, content: string): (r: Result<Option<string>, PyException>)
    ensures r.Failure? <==> DetectFileType(filename).Failure?
  {
    var fileType :- DetectFileType(filename);
    match fileType
    case Pdf =>
      var text := PdfText(pages);
      if Trim(text) == "" then Success(None) else Success(Some(text))
    case TextFile => Success(Some(content))
    case Image => Success(None)
  }

  /** What `extract_text` gives for each file type. */
  lemma ExtractByType(filename: string, pages: seq<string>, content: string)
    ensures DetectFileType(filename) == Success(Image) ==> ExtractText(filename, pages, content) == Success(None)
    ensures DetectFileType(filename) == Success(TextFile) ==> ExtractText(filename, pages, content) == Success(Some(content))
    ensures DetectFileType(filename) == Success(Pdf) ==>
      && (ExtractText(filename, pages, content) == Success(None) <==> forall i | 0 <= i < |pages| :: BlankPage(pages[i]))
      && (ExtractText(filename, pages, content) != Success(None) ==>
            ExtractText(filename, pages, content) == Success(Some(PdfText(pages))))
  {
    PdfTextEmptyIffAllBlank(pages);
  }
}
