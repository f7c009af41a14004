/** `read_file`: the check that the file exists, the dispatch on the
    lower-cased suffix of the path, the joins of the Word and PDF readers and
    the rejection of PDFs without a text layer. What the text decoder,
    python-docx and PyMuPDF extract from a file is given as input. */
module FileReader {
  import opened Wrappers
  import opened Strings

  /** A stored file, seen through the three libraries: its text as UTF-8,
      the texts of its Word paragraphs and the texts of its PDF pages. */
  datatype StoredFile = StoredFile(text: string, paragraphs: seq<string>, pages: seq<string>)

  datatype ReadError =
    | FileNotFound(path: string)
    | UnsupportedFormat(suffix: string)
    | NotOcrProcessed

  datatype ReaderKind = TextReader | WordReader | PdfReader

  // ---------------------------------------------------------------------
  // Paths
  // ---------------------------------------------------------------------

  /** The last component that names something: `pathlib` drops empty and
      "." components. */
  function LastNamed(parts: seq<string>): string {
    if |parts| == 0 then ""
    else if Last(parts) != "" && Last(parts) != "." then Last(parts)
    else LastNamed(parts[..|parts| - 1])
  }

  /** `Path(p).name` for a POSIX path. */
  function PathName(path: string): (name: string)
    ensures '/' !in name
  {
    var parts := Split(path, '/');
    LastNamedIsPart(parts);
    LastNamed(parts)
  }

  lemma {:induction false} LastNamedIsPart(parts: seq<string>)
    ensures LastNamed(parts) == "" || LastNamed(parts) in parts
  {
    if |parts| > 0 && !(Last(parts) != "" && Last(parts) != ".") {
      LastNamedIsPart(parts[..|parts| - 1]);
    }
  }

  /** A file name put after a directory is the name of the path. */
  lemma PathNameOfJoin(dir: string, file: string)
    requires '/' !in file && file != "" && file != "."
    ensures PathName(dir + "/" + file) == file
  {
    SplitConcat(dir, file, '/');
    SplitNoSep(file, '/');
    assert dir + "/" + file == dir + ['/'] + file;
  }

  /** `Path.suffix`: from the last dot of the name, when that dot is neither
      the first nor the last character; otherwise empty. */
  function Suffix(name: string): (suffix: string)
    ensures suffix == "" || (2 <= |suffix| <= |name| && suffix[0] == '.' && name[|name| - |suffix|..] == suffix
                            && '.' !in suffix[1..])
  {
    match LastIndexOf(name, '.')
    case Some(i) => if 0 < i < |name| - 1 then name[i..] else ""
    case None => ""
  }

  // ---------------------------------------------------------------------
  // Readers
  // ---------------------------------------------------------------------

  /** `get_supported_extensions()` */
  function SupportedExtensions(): (r: seq<string>)
    ensures forall e :: e in r <==> ReaderFor(e).Some?
  {
    [".txt", ".md", ".docx", ".pdf"]
  }

  /** The reader `read_file` chooses for a lower-cased suffix. */
  function ReaderFor(suffix: string): Option<ReaderKind> {
    if suffix in [".txt", ".md"] then Some(TextReader)
    else if suffix == ".docx" then Some(WordReader)
    else if suffix == ".pdf" then Some(PdfReader)
    else None
  }

  /** The suffixes `read_file` accepts are exactly the supported extensions. */
  lemma ReaderForSupported(suffix: string)
    ensures ReaderFor(suffix).Some? <==> suffix in SupportedExtensions()
  {
  }

  /** `_read_docx_file`: the paragraph texts joined by newlines. */
  function WordText(paragraphs: seq<string>): string {
    Join(paragraphs, "\n")
  }

  /** Paragraphs without line breaks can be read back from the text. */
  lemma WordTextLines(paragraphs: seq<string>)
    requires |paragraphs| >= 1
    requires forall k :: 0 <= k < |paragraphs| ==> '\n' !in paragraphs[k]
    ensures Split(WordText(paragraphs), '\n') == paragraphs
  {
    SplitJoin(paragraphs, '\n');
  }

  /** What `_read_pdf_file` returns: the page texts joined by newlines and
      stripped, or an error when fewer than ten characters remain. */
  function PdfText(pages: seq<string>): Result<string, ReadError> {
    var text := Strip(Join(pages, "\n"));
    if |text| < 10 then Err(NotOcrProcessed) else Ok(text)
  }

  /** A PDF text is at least ten characters long, has no white space at
      either end and is a piece of the joined pages; it is rejected exactly
      when the stripped join is shorter. */
  lemma PdfTextSpec(pages: seq<string>)
    ensures PdfText(pages).Ok? ==> |PdfText(pages).value| >= 10 && Stripped(PdfText(pages).value)
    ensures PdfText(pages).Ok? ==> Contains(Join(pages, "\n"), PdfText(pages).value)
    ensures PdfText(pages).Err? <==> |Strip(Join(pages, "\n"))| < 10
  {
    StripContained(Join(pages, "\n"));
  }

  /** Pages with no text give no text. */
  lemma BlankPdfRejected(pages: seq<string>)
    requires forall k :: 0 <= k < |pages| ==> pages[k] == ""
    ensures PdfText(pages) == Err(NotOcrProcessed)
  {
    var joined := Join(pages, "\n");
    JoinBlank(pages, "\n");
    StripEmptyIff(joined);
  }

  /** `_read_pdf_file`: the loop over the pages appending each page's text,
      then the join, the strip and the length check. */
  method ReadPdfFile(pages: seq<string>) returns (r: Result<string, ReadError>)
    ensures r == PdfText(pages)
  {
    var textParts: seq<string> := [];
    for k := 0 to |pages|
      invariant textParts == pages[..k]
    {
      textParts := textParts + [pages[k]];
    }
    assert textParts == pages;
    var text := Strip(Join(textParts, "\n"));
    if |text| < 10 {
      return Err(NotOcrProcessed);
    }
    return Ok(text);
  }

  /** The suffix `read_file` dispatches on. */
  function FileSuffix(filepath: string): string {
    Lower(Suffix(PathName(filepath)))
  }

  /** The reader chosen for a lower-cased suffix, applied to the file. */
  function Dispatch(file: StoredFile, suffix: string): Result<string, ReadError> {
    match ReaderFor(suffix)
    case Some(TextReader) => Ok(file.text)
    case Some(WordReader) => Ok(WordText(file.paragraphs))
    case Some(PdfReader) => PdfText(file.pages)
    case None => Err(UnsupportedFormat(suffix))
  }

  /** `read_file(filepath)` over the stored files: a missing path is
      reported first; then the lower-cased suffix picks the reader. */
  function ReadFile(files: map<string, StoredFile>, filepath: string): Result<string, ReadError> {
    if filepath !in files then Err(FileNotFound(filepath))
    else Dispatch(files[filepath], FileSuffix(filepath))
  }

  /** Existence is checked before the suffix: a missing file is reported as
      missing whatever its name. */
  lemma MissingFileFirst(files: map<string, StoredFile>, filepath: string)
    requires filepath !in files
    ensures ReadFile(files, filepath) == Err(FileNotFound(filepath))
  {
  }

  /** A file is rejected as unsupported exactly when its suffix is not a
      supported extension, and the error names that suffix; the only other
      error of the readers is the PDF without text. */
  lemma DispatchAcceptsSupported(file: StoredFile, suffix: string)
    ensures Dispatch(file, suffix) == Err(UnsupportedFormat(suffix)) <==> suffix !in SupportedExtensions()
    ensures forall e :: Dispatch(file, suffix) == Err(e) ==>
      e == UnsupportedFormat(suffix) || (e == NotOcrProcessed && suffix == ".pdf")
  {
    ReaderForSupported(suffix);
  }

  /** For an existing file, the extensions `read_file` accepts are exactly
      `get_supported_extensions()`, compared after lower-casing. */
  lemma ReadFileAcceptsSupported(files: map<string, StoredFile>, filepath: string)
    requires filepath in files
    ensures ReadFile(files, filepath) == Err(UnsupportedFormat(FileSuffix(filepath)))
        <==> FileSuffix(filepath) !in SupportedExtensions()
  {
    DispatchAcceptsSupported(files[filepath], FileSuffix(filepath));
  }

  /** The suffix of a name is compared in lower case: "a.PDF" is a PDF. */
  lemma SuffixCaseIgnored(dir: string)
    ensures FileSuffix(dir + "/a.PDF") == ".pdf"
  {
    PathNameOfJoin(dir, "a.PDF");
    assert dir + "/a.PDF" == dir + "/" + "a.PDF";
    UpperPdfSuffix();
    LowerPdf();
  }

  lemma UpperPdfSuffix()
    ensures Suffix("a.PDF") == ".PDF"
  {
    LastIndexOfIs("a.PDF", '.', 1);
  }

  lemma LowerPdf()
    ensures Lower(".PDF") == ".pdf"
  {
    var l := Lower(".PDF");
    assert l[0] == '.' && l[1] == 'p' && l[2] == 'd' && l[3] == 'f';
  }
}
