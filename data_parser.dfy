/**
 * utils/data_parser.py: how an uploaded file becomes text, and where an
 * accepted resume is stored.
 *
 * The readers themselves (PyPDF2, python-docx, UTF-8 decoding) are not
 * modelled. An upload carries what each reader would report for its bytes:
 * the text extracted from each PDF page (absent when the page has none), the
 * text of each Word paragraph, and the decoded text.
 */
module DataParser {

  import opened Wrappers
  import opened TextUtil

  /** What the three readers report for an upload's bytes. */
  datatype Content = Content(pdfPages: seq<Option<string>>, docxParagraphs: seq<string>, utf8Text: string)

  /** An uploaded file: its name, its MIME type and its content. */
  datatype Upload = Upload(name: string, mimeType: string, content: Content)

  /** The reader `parse_document` picks for a MIME type. */
  datatype Format = Pdf | Word | PlainText | Unsupported

  /** The dispatch of `parse_document`: "pdf" first, then "word", then "text". */
  function FormatOf(mimeType: string): (f: Format)
    ensures f == Pdf <==> Contains(mimeType, "pdf")
    ensures f == Word <==> !Contains(mimeType, "pdf") && Contains(mimeType, "word")
    ensures f == PlainText <==> !Contains(mimeType, "pdf") && !Contains(mimeType, "word") && Contains(mimeType, "text")
  {
    if Contains(mimeType, "pdf") then Pdf
    else if Contains(mimeType, "word") then Word
    else if Contains(mimeType, "text") then PlainText
    else Unsupported
  }

  // ---------------------------------------------------------------------------
  // PDF

  /** `page.extract_text() or ""`. */
  function PageText(page: Option<string>): string {
    match page
    case None => ""
    case Some(t) => t
  }

  /** The pages' texts, concatenated in page order. */
  function PdfText(pages: seq<Option<string>>): string {
    if pages == [] then "" else PdfText(pages[..|pages| - 1]) + PageText(pages[|pages| - 1])
  }

  /** `parse_pdf`: the accumulating loop over the reader's pages. */
  method ParsePdf(pages: seq<Option<string>>) returns (text: string)
    ensures text == PdfText(pages)
  {
    text := "";
    for i := 0 to |pages|
      invariant text == PdfText(pages[..i])
    {
      assert pages[..i + 1][..i] == pages[..i];
      text := text + PageText(pages[i]);
    }
    assert pages[..|pages|] == pages;
  }

  /** The text of a document split into two runs of pages is the two texts joined. */
  lemma {:induction false} PdfTextAppend(a: seq<Option<string>>, b: seq<Option<string>>)
    ensures PdfText(a + b) == PdfText(a) + PdfText(b)
    decreases |b|
  {
    if b == [] {
      assert a + b == a;
    } else {
      var b', last := b[..|b| - 1], b[|b| - 1];
      assert (a + b)[..|a + b| - 1] == a + b';
      assert (a + b)[|a + b| - 1] == last;
      assert PdfText(a + b) == PdfText(a + b') + PageText(last);
      PdfTextAppend(a, b');
      assert PdfText(b) == PdfText(b') + PageText(last);
      Associative(PdfText(a), PdfText(b'), PageText(last));
    }
  }

  lemma Associative(x: string, y: string, z: string)
    ensures (x + y) + z == x + (y + z)
  {
  }

  /** A page without text (no text at all, or empty text) adds nothing. */
  lemma EmptyPageAddsNothing(a: seq<Option<string>>, page: Option<string>, b: seq<Option<string>>)
    requires page == None || page == Some("")
    ensures PdfText(a + [page] + b) == PdfText(a + b)
  {
    var x := a + [page];
    assert x[..|x| - 1] == a && x[|x| - 1] == page;
    assert PdfText(x) == PdfText(a) + PageText(page);
    assert PdfText(x) == PdfText(a);
    PdfTextAppend(x, b);
    PdfTextAppend(a, b);
  }

  function SumPageLengths(pages: seq<Option<string>>): nat {
    if pages == [] then 0 else SumPageLengths(pages[..|pages| - 1]) + |PageText(pages[|pages| - 1])|
  }

  /** The text is exactly as long as the pages' texts together. */
  lemma {:induction false} PdfTextLength(pages: seq<Option<string>>)
    ensures |PdfText(pages)| == SumPageLengths(pages)
  {
    if pages != [] {
      PdfTextLength(pages[..|pages| - 1]);
    }
  }

  // ---------------------------------------------------------------------------
  // Word

  /** Each paragraph's text followed by a newline, concatenated in order. */
  function DocxText(paragraphs: seq<string>): string {
    if paragraphs == [] then ""
    else DocxText(paragraphs[..|paragraphs| - 1]) + paragraphs[|paragraphs| - 1] + "\n"
  }

  /** `parse_docx`: the accumulating loop over the document's paragraphs. */
  method ParseDocx(paragraphs: seq<string>) returns (text: string)
    ensures text == DocxText(paragraphs)
  {
    text := "";
    for i := 0 to |paragraphs|
      invariant text == DocxText(paragraphs[..i])
    {
      assert paragraphs[..i + 1][..i] == paragraphs[..i];
      text := text + paragraphs[i] + "\n";
    }
    assert paragraphs[..|paragraphs|] == paragraphs;
  }

  lemma {:induction false} DocxTextAppend(a: seq<string>, b: seq<string>)
    ensures DocxText(a + b) == DocxText(a) + DocxText(b)
    decreases |b|
  {
    if b == [] {
      assert a + b == a;
    } else {
      var b', last := b[..|b| - 1], b[|b| - 1];
      assert (a + b)[..|a + b| - 1] == a + b';
      assert (a + b)[|a + b| - 1] == last;
      assert DocxText(a + b) == DocxText(a + b') + last + "\n";
      DocxTextAppend(a, b');
      assert DocxText(b) == DocxText(b') + last + "\n";
      Associative(DocxText(a), DocxText(b'), last);
      Associative(DocxText(a), DocxText(b') + last, "\n");
    }
  }

  function SumLengths(paragraphs: seq<string>): nat {
    if paragraphs == [] then 0 else SumLengths(paragraphs[..|paragraphs| - 1]) + |paragraphs[|paragraphs| - 1]|
  }

  /** One character per paragraph character, plus one newline per paragraph. */
  lemma {:induction false} DocxTextLength(paragraphs: seq<string>)
    ensures |DocxText(paragraphs)| == SumLengths(paragraphs) + |paragraphs|
  {
    if paragraphs != [] {
      DocxTextLength(paragraphs[..|paragraphs| - 1]);
    }
  }

  /** No paragraphs give the empty text; otherwise the text ends with a newline. */
  lemma DocxTextEnd(paragraphs: seq<string>)
    ensures paragraphs == [] <==> DocxText(paragraphs) == ""
    ensures paragraphs != [] ==> DocxText(paragraphs)[|DocxText(paragraphs)| - 1] == '\n'
  {
  }

  /** Paragraph k appears, followed by its newline, after the text of the paragraphs before it. */
  lemma ParagraphInPlace(paragraphs: seq<string>, k: nat)
    requires k < |paragraphs|
    ensures StartsAt(DocxText(paragraphs), |DocxText(paragraphs[..k])|, paragraphs[k] + "\n")
  {
    var before, after := paragraphs[..k], paragraphs[k + 1..];
    assert paragraphs == before + [paragraphs[k]] + after;
    DocxTextAppend(before + [paragraphs[k]], after);
    DocxTextAppend(before, [paragraphs[k]]);
    assert [paragraphs[k]][..0] == [];
    var t := DocxText(paragraphs);
    var p := |DocxText(before)|;
    assert t == DocxText(before) + (paragraphs[k] + "\n") + DocxText(after);
    assert t[p..p + |paragraphs[k] + "\n"|] == paragraphs[k] + "\n";
  }

  // ---------------------------------------------------------------------------
  // Dispatch

  /** What `parse_document` returns for an upload; `None` for an unsupported type. */
  function DocumentText(u: Upload): Option<string> {
    match FormatOf(u.mimeType)
    case Pdf => Some(PdfText(u.content.pdfPages))
    case Word => Some(DocxText(u.content.docxParagraphs))
    case PlainText => Some(u.content.utf8Text)
    case Unsupported => None
  }

  /** `parse_document`. */
  method ParseDocument(u: Upload) returns (text: Option<string>)
    ensures text == DocumentText(u)
  {
    var fileType := u.mimeType;
    if Contains(fileType, "pdf") {
      var t := ParsePdf(u.content.pdfPages);
      text := Some(t);
    } else if Contains(fileType, "word") {
      var t := ParseDocx(u.content.docxParagraphs);
      text := Some(t);
    } else if Contains(fileType, "text") {
      text := Some(u.content.utf8Text);
    } else {
      text := None;
    }
  }

  /**
   * The dispatch order in one place: `"pdf"` wins over `"word"` and `"text"`,
   * and `"word"` wins over `"text"` (gathered from `FormatOf`'s contract for
   * readers); a type is unsupported exactly when it names none of the three.
   */
  lemma DispatchPrecedence(mimeType: string)
    ensures Contains(mimeType, "pdf") ==> FormatOf(mimeType) == Pdf
    ensures Contains(mimeType, "word") && FormatOf(mimeType) != Word ==> FormatOf(mimeType) == Pdf
    ensures Contains(mimeType, "text") && FormatOf(mimeType) != PlainText ==> FormatOf(mimeType) in {Pdf, Word}
    ensures FormatOf(mimeType) == Unsupported <==> !Contains(mimeType, "pdf") && !Contains(mimeType, "word") && !Contains(mimeType, "text")
  {
  }

  /** A text lacking one of the pattern's characters does not contain the pattern. */
  lemma MissingCharNotContained(s: string, p: string, c: char)
    requires c in p && c !in s
    ensures !Contains(s, p)
  {
    ContainsIff(s, p);
  }

  /** A pattern found at some position is contained. */
  lemma FoundIsContained(s: string, p: string, k: nat)
    requires StartsAt(s, k, p)
    ensures Contains(s, p)
  {
    ContainsIff(s, p);
  }

  lemma PdfMimeType()
    ensures FormatOf("application/pdf") == Pdf
  {
    FoundIsContained("application/pdf", "pdf", 12);
  }

  lemma MswordLacksPdf()
    ensures !Contains("application/msword", "pdf")
  {
    MissingCharNotContained("application/msword", "pdf", 'f');
  }

  lemma MswordHasWord()
    ensures Contains("application/msword", "word")
  {
    FoundIsContained("application/msword", "word", 14);
  }

  /** The type of a .doc file names "msword", so it is read as Word. */
  lemma WordMimeType()
    ensures FormatOf("application/msword") == Word
  {
    MswordLacksPdf();
    MswordHasWord();
  }

  lemma PlainTextLacksPdf()
    ensures !Contains("text/plain", "pdf")
  {
    MissingCharNotContained("text/plain", "pdf", 'd');
  }

  lemma PlainTextLacksWord()
    ensures !Contains("text/plain", "word")
  {
    MissingCharNotContained("text/plain", "word", 'w');
  }

  lemma PlainTextHasText()
    ensures Contains("text/plain", "text")
  {
    FoundIsContained("text/plain", "text", 0);
  }

  lemma PlainTextMimeType()
    ensures FormatOf("text/plain") == PlainText
  {
    PlainTextLacksPdf();
    PlainTextLacksWord();
    PlainTextHasText();
  }

  lemma ImageLacksPdf()
    ensures !Contains("image/png", "pdf")
  {
    MissingCharNotContained("image/png", "pdf", 'd');
  }

  lemma ImageLacksWord()
    ensures !Contains("image/png", "word")
  {
    MissingCharNotContained("image/png", "word", 'w');
  }

  lemma ImageLacksText()
    ensures !Contains("image/png", "text")
  {
    MissingCharNotContained("image/png", "text", 'x');
  }

  lemma ImageMimeTypeUnsupported()
    ensures FormatOf("image/png") == Unsupported
  {
    ImageLacksPdf();
    ImageLacksWord();
    ImageLacksText();
  }

  /** Only an unsupported type yields no text. */
  lemma NoTextOnlyWhenUnsupported(u: Upload)
    ensures DocumentText(u).None? <==> FormatOf(u.mimeType) == Unsupported
  {
  }

  // ---------------------------------------------------------------------------
  // Storage path

  const StorageDirectory: string := "resumes"

  /**
   * The path `save_uploaded_file` returns: `os.path.join("resumes",
   * f"{uuid}_{name}")` when the write succeeds, `None` when it fails. The
   * random uuid and the success of the disk write are parameters.
   */
  function SaveUploadedFile(name: string, uuid: string, writeSucceeds: bool): (path: Option<string>)
    ensures path.None? <==> !writeSucceeds
  {
    if writeSucceeds then Some(StorageDirectory + "/" + uuid + "_" + name) else None
  }

  predicate IsHexDigit(c: char) {
    '0' <= c <= '9' || 'a' <= c <= 'f'
  }

  /** The text of a `uuid.UUID`: 32 lower-case hexadecimal digits in groups of 8-4-4-4-12. */
  predicate UuidText(u: string) {
    |u| == 36 &&
    forall i :: 0 <= i < 36 ==> if i in {8, 13, 18, 23} then u[i] == '-' else IsHexDigit(u[i])
  }

  /** The directory, uuid and name can be read back from a stored path. */
  lemma StoredPathParts(name: string, uuid: string)
    requires UuidText(uuid)
    ensures var path := SaveUploadedFile(name, uuid, true).value;
            path[..8] == "resumes/" && path[8..44] == uuid && path[44] == '_' && path[45..] == name
  {
    var path := SaveUploadedFile(name, uuid, true).value;
    assert path == "resumes/" + uuid + "_" + name;
  }

  /** The stored file name ends with `_` and the upload's name. */
  lemma StoredPathEndsWithName(name: string, uuid: string)
    ensures var path := SaveUploadedFile(name, uuid, true).value;
            |path| >= |name| + 1 && path[|path| - |name| - 1..] == "_" + name
  {
    var path := SaveUploadedFile(name, uuid, true).value;
    assert path == ("resumes/" + uuid) + ("_" + name);
  }

  /** Two saves with different uuids never share a path, even for the same name. */
  lemma DistinctUuidsDistinctPaths(name1: string, name2: string, uuid1: string, uuid2: string)
    requires UuidText(uuid1) && UuidText(uuid2) && uuid1 != uuid2
    ensures SaveUploadedFile(name1, uuid1, true) != SaveUploadedFile(name2, uuid2, true)
  {
    StoredPathParts(name1, uuid1);
    StoredPathParts(name2, uuid2);
  }
}
