/** Text extraction from a downloaded report. The PDF parser is foreign code:
    a document is taken as the sequence of its page texts, and extraction is
    the page-by-page accumulation the source performs, starting from " ". */
module PdfText {
  import opened PyStr

  /** The accumulating loop: `text += page.get_text()` for each page in order. */
  function AppendPages(text: string, pages: seq<string>): string
    decreases |pages|
  {
    if |pages| == 0 then text else AppendPages(text + pages[0], pages[1..])
  }

  /** The text of a document: a single space, then every page's text in
      page order, with no separator between pages. */
  function ExtractText(pages: seq<string>): (text: string)
    ensures text == " " + Concat(pages)
  {
    AppendPagesIsConcat(" ", pages);
    AppendPages(" ", pages)
  }

  /** The accumulating loop equals appending the concatenation of all pages. */
  lemma {:induction false} AppendPagesIsConcat(text: string, pages: seq<string>)
    ensures AppendPages(text, pages) == text + Concat(pages)
    decreases |pages|
  {
    if |pages| > 0 {
      AppendPagesIsConcat(text + pages[0], pages[1..]);
      assert text + pages[0] + Concat(pages[1..]) == text + (pages[0] + Concat(pages[1..]));
    }
  }

  /** A further page only extends the text: earlier pages' text is kept. */
  lemma ExtractTextAppendPage(pages: seq<string>, page: string)
    ensures ExtractText(pages + [page]) == ExtractText(pages) + page
  {
    ConcatSnoc(pages, page);
  }
}
