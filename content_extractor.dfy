/**
 * `read_file_content`: turn an upload into text according to its declared media type.
 * What the PDF, word-processor, UTF-8 and table libraries make of the bytes is part of the
 * input; the model decides which of them is used and how their pieces are put together.
 */
module ContentExtractor {
  import opened Wrappers

  const PdfType := "application/pdf"
  const DocxType := "application/vnd.openxmlformats-officedocument.wordprocessingml.document"
  const TextType := "text/plain"
  const XlsType := "application/vnd.ms-excel"
  const XlsxType := "application/vnd.openxmlformats-officedocument.spreadsheetml.sheet"
  const CsvType := "text/csv"

  /** The branch of the dispatch a declared media type selects. */
  datatype Kind = Pdf | Docx | PlainText | Spreadsheet | Csv | Unrecognised

  function Classify(mediaType: string): (kind: Kind)
    ensures kind == Pdf <==> mediaType == PdfType
    ensures kind == Docx <==> mediaType == DocxType
    ensures kind == PlainText <==> mediaType == TextType
    ensures kind == Spreadsheet <==> mediaType == XlsType || mediaType == XlsxType
    ensures kind == Csv <==> mediaType == CsvType
  {
    if mediaType == PdfType then Pdf
    else if mediaType == DocxType then Docx
    else if mediaType == TextType then PlainText
    else if mediaType in [XlsType, XlsxType] then Spreadsheet
    else if mediaType == CsvType then Csv
    else Unrecognised
  }

  /**
   * An uploaded file as the libraries see it. `None` marks a library call that raises:
   * opening the PDF, extracting one page's text, opening the document, decoding the bytes
   * as UTF-8, reading the spreadsheet or CSV into a table and rendering it with `to_string`.
   */
  datatype Upload = Upload(
    mediaType: string,
    pdfPages: Option<seq<Option<string>>>,
    docxParagraphs: Option<seq<string>>,
    utf8Text: Option<string>,
    excelTable: Option<string>,
    csvTable: Option<string>)

  /** `content += piece + "\n"` over the pieces in order, starting from `""`. */
  function JoinLines(pieces: seq<string>): (content: string)
    ensures content == "" <==> pieces == []
    ensures pieces != [] ==> content[|content| - 1] == '\n'
  {
    if pieces == [] then "" else JoinLines(pieces[..|pieces| - 1]) + pieces[|pieces| - 1] + "\n"
  }

  function SumLengths(pieces: seq<string>): (total: nat) {
    if pieces == [] then 0 else SumLengths(pieces[..|pieces| - 1]) + |pieces[|pieces| - 1]|
  }

  /** The joined text is as long as the pieces together plus one newline per piece. */
  lemma {:induction false} JoinLinesLength(pieces: seq<string>)
    ensures |JoinLines(pieces)| == SumLengths(pieces) + |pieces|
  {
    if pieces != [] {
      JoinLinesLength(pieces[..|pieces| - 1]);
    }
  }

  /** Joining is also "first piece, newline, the rest joined". */
  lemma {:induction false} JoinLinesCons(p: string, ps: seq<string>)
    ensures JoinLines([p] + ps) == p + "\n" + JoinLines(ps)
    decreases |ps|
  {
    if ps == [] {
      assert [p] + ps == [p];
      assert [p][..0] == [];
    } else {
      var last := ps[|ps| - 1];
      var init := ps[..|ps| - 1];
      assert ([p] + ps)[..|[p] + ps| - 1] == [p] + init;
      JoinLinesCons(p, init);
    }
  }

  /** The position of the first newline in `s`, or `|s|` when there is none. */
  function NewlineIndex(s: string): (k: nat)
    ensures k <= |s|
    ensures '\n' !in s[..k]
    ensures k == |s| || s[k] == '\n'
  {
    if s == [] || s[0] == '\n' then 0
    else
      var k := 1 + NewlineIndex(s[1..]);
      assert s[..k] == [s[0]] + s[1..][..k - 1];
      k
  }

  /** Cut a text into its lines; a final line without a newline is kept as well. */
  function SplitLines(s: string): (lines: seq<string>)
    decreases |s|
  {
    if s == [] then []
    else
      var k := NewlineIndex(s);
      if k == |s| then [s] else [s[..k]] + SplitLines(s[k + 1..])
  }

  /** When no piece holds a newline, the extracted text can be cut back into exactly the pieces. */
  lemma {:induction false} SplitJoinLines(pieces: seq<string>)
    requires forall i :: 0 <= i < |pieces| ==> '\n' !in pieces[i]
    ensures SplitLines(JoinLines(pieces)) == pieces
    decreases |pieces|
  {
    if pieces != [] {
      var p, ps := pieces[0], pieces[1..];
      assert pieces == [p] + ps;
      JoinLinesCons(p, ps);
      var s := p + "\n" + JoinLines(ps);
      NewlineIndexAt(p, JoinLines(ps));
      assert s[..|p|] == p && s[|p| + 1..] == JoinLines(ps);
      SplitJoinLines(ps);
    }
  }

  lemma {:induction false} NewlineIndexAt(p: string, rest: string)
    requires '\n' !in p
    ensures NewlineIndex(p + "\n" + rest) == |p|
    decreases |p|
  {
    var s := p + "\n" + rest;
    if p != [] {
      assert s[1..] == p[1..] + "\n" + rest;
      NewlineIndexAt(p[1..], rest);
    }
  }

  /** Every page's text, when every page yields one. */
  function PageTexts(pages: seq<Option<string>>): (texts: Option<seq<string>>)
    ensures texts.Some? <==> forall i :: 0 <= i < |pages| ==> pages[i].Some?
    ensures texts.Some? ==> |texts.value| == |pages|
    ensures texts.Some? ==> forall i :: 0 <= i < |pages| ==> texts.value[i] == pages[i].value
  {
    if pages == [] then Some([])
    else
      match (pages[0], PageTexts(pages[1..]))
      case (Some(t), Some(ts)) =>
        assert forall i :: 1 <= i < |pages| ==> pages[i] == pages[1..][i - 1];
        Some([t] + ts)
      case (Some(t), None) =>
        assert exists i :: 1 <= i < |pages| && pages[i] == pages[1..][i - 1] && pages[i].None?;
        None
      case (None, _) => None
  }

  /** Whether the library the media type selects raises on this upload. */
  predicate ExtractionFails(upload: Upload) {
    match Classify(upload.mediaType)
    case Pdf => upload.pdfPages.None? || PageTexts(upload.pdfPages.value).None?
    case Docx => upload.docxParagraphs.None?
    case PlainText => upload.utf8Text.None?
    case Spreadsheet => upload.excelTable.None?
    case Csv => upload.csvTable.None?
    case Unrecognised => false
  }

  /** The result of `read_file_content`: the text, or `None` when extraction raised. */
  function FileContent(upload: Upload): (content: Option<string>)
    ensures content.None? <==> ExtractionFails(upload)
    ensures Classify(upload.mediaType) == Unrecognised ==> content == Some("")
    ensures Classify(upload.mediaType) == Pdf && content.Some? ==>
      content.value == JoinLines(PageTexts(upload.pdfPages.value).value)
    ensures Classify(upload.mediaType) == Docx && content.Some? ==>
      content.value == JoinLines(upload.docxParagraphs.value)
    ensures Classify(upload.mediaType) == PlainText ==> content == upload.utf8Text
    ensures Classify(upload.mediaType) == Spreadsheet ==> content == upload.excelTable
    ensures Classify(upload.mediaType) == Csv ==> content == upload.csvTable
    ensures Classify(upload.mediaType) == Pdf && content.Some? ==>
      |content.value| == SumLengths(PageTexts(upload.pdfPages.value).value) + |upload.pdfPages.value|
    ensures Classify(upload.mediaType) == Docx && content.Some? ==>
      |content.value| == SumLengths(upload.docxParagraphs.value) + |upload.docxParagraphs.value|
  {
    match Classify(upload.mediaType)
    case Pdf =>
      if upload.pdfPages.None? then None
      else
        (match PageTexts(upload.pdfPages.value)
         case None => None
         case Some(texts) => JoinLinesLength(texts); Some(JoinLines(texts)))
    case Docx =>
      if upload.docxParagraphs.None? then None
      else JoinLinesLength(upload.docxParagraphs.value); Some(JoinLines(upload.docxParagraphs.value))
    case PlainText => upload.utf8Text
    case Spreadsheet => upload.excelTable
    case Csv => upload.csvTable
    case Unrecognised => Some("")
  }

  /** `read_file_content` as the source runs it: dispatch, then append each piece in a loop. */
  method ReadFileContent(upload: Upload) returns (content: Option<string>)
    ensures content == FileContent(upload)
  {
    var text := "";
    var fileType := upload.mediaType;
    if fileType == PdfType {
      if upload.pdfPages.None? {
        return None;
      }
      var pages := upload.pdfPages.value;
      ghost var texts: seq<string> := [];
      for i := 0 to |pages|
        invariant |texts| == i
        invariant forall j :: 0 <= j < i ==> pages[j].Some? && texts[j] == pages[j].value
        invariant text == JoinLines(texts)
      {
        if pages[i].None? {
          return None;
        }
        texts := texts + [pages[i].value];
        assert texts[..|texts| - 1] == texts[..i];
        text := text + pages[i].value + "\n";
      }
      ghost var extracted := PageTexts(pages);
      assert extracted.Some?;
      assert extracted.value == texts;
    } else if fileType == DocxType {
      if upload.docxParagraphs.None? {
        return None;
      }
      var paragraphs := upload.docxParagraphs.value;
      for i := 0 to |paragraphs|
        invariant text == JoinLines(paragraphs[..i])
      {
        assert paragraphs[..i + 1][..i] == paragraphs[..i];
        text := text + paragraphs[i] + "\n";
      }
      assert paragraphs[..|paragraphs|] == paragraphs;
    } else if fileType == TextType {
      if upload.utf8Text.None? {
        return None;
      }
      text := upload.utf8Text.value;
    } else if fileType == XlsType || fileType == XlsxType {
      if upload.excelTable.None? {
        return None;
      }
      text := upload.excelTable.value;
    } else if fileType == CsvType {
      if upload.csvTable.None? {
        return None;
      }
      text := upload.csvTable.value;
    }
    return Some(text);
  }
}
