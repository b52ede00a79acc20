/** Direct extraction of the embedded text layer of a PDF: the document is
    seen as its pages, each page as the ordered text fragments (`item.str`)
    of its text content. At most the first five pages are read. */
module PdfText {
  import opened JsString

  /** The text fragments of one page, in content-stream order. */
  type Page = seq<string>

  const MaxDirectPages: nat := 5
  const FragmentSeparator: string := " "
  const PageTerminator: string := "\n\n"

  /** `Math.min(pdf.numPages, 5)`. */
  function PagesRead(numPages: nat): (n: nat)
    ensures n <= numPages && n <= MaxDirectPages
    ensures n == numPages || n == MaxDirectPages
  {
    if numPages < MaxDirectPages then numPages else MaxDirectPages
  }

  /** `textContent.items.map(s => s.str).join(' ')`. */
  function PageText(page: Page): (r: string)
    ensures |page| == 0 ==> r == ""
    ensures AllWhitespace(r) <==> forall f :: 0 <= f < |page| ==> AllWhitespace(page[f])
  {
    JoinAllWhitespace(page, FragmentSeparator);
    Join(page, FragmentSeparator)
  }

  /** One page's contribution to `fullText`. */
  function PageBlock(page: Page): string {
    PageText(page) + PageTerminator
  }

  /** `fullText` after the given pages have been appended in order. */
  function Body(pages: seq<Page>): (r: string)
    ensures r == "" <==> |pages| == 0
  {
    if |pages| == 0 then ""
    else Body(pages[..|pages| - 1]) + PageBlock(pages[|pages| - 1])
  }

  /** `extractTextFromPDF` as a function of the document's pages. */
  function DirectText(pages: seq<Page>): (r: string)
    ensures Trimmed(r)
    ensures IsTrimOf(r, Body(pages[..PagesRead(|pages|)]))
  {
    Trim(Body(pages[..PagesRead(|pages|)]))
  }

  /** The loop of `extractTextFromPDF`: append each of the first pages'
      text followed by a blank line, then trim the whole once. The result
      is what remains of those blocks, in page order, once whitespace is cut
      from both ends. */
  method ExtractTextFromPdf(pages: seq<Page>) returns (text: string)
    ensures Trimmed(text)
    ensures IsTrimOf(text, Body(pages[..PagesRead(|pages|)]))
    ensures text == DirectText(pages)
  {
    var fullText := "";
    var numPagesToProcess := PagesRead(|pages|);
    var i := 1;
    while i <= numPagesToProcess
      invariant 1 <= i <= numPagesToProcess + 1
      invariant fullText == Body(pages[..i - 1])
    {
      var pageText := PageText(pages[i - 1]);
      assert pages[..i][..i - 1] == pages[..i - 1];
      fullText := fullText + pageText + PageTerminator;
      i := i + 1;
    }
    text := Trim(fullText);
  }

  /** Appending pages appends their blocks. */
  lemma {:induction false} BodyAppend(ps: seq<Page>, qs: seq<Page>)
    decreases |qs|
    ensures Body(ps + qs) == Body(ps) + Body(qs)
  {
    if |qs| == 0 {
      assert ps + qs == ps;
    } else {
      var last := qs[|qs| - 1];
      var front := qs[..|qs| - 1];
      assert (ps + qs)[..|ps + qs| - 1] == ps + front;
      assert (ps + qs)[|ps + qs| - 1] == last;
      BodyAppend(ps, front);
      calc {
        Body(ps + qs);
        Body(ps + front) + PageBlock(last);
        (Body(ps) + Body(front)) + PageBlock(last);
        Body(ps) + (Body(front) + PageBlock(last));
        Body(ps) + Body(qs);
      }
    }
  }

  /** Page order: page `k`'s block follows the blocks of all earlier pages
      and precedes those of all later ones. */
  lemma PageBlockInOrder(pages: seq<Page>, k: nat)
    requires k < |pages|
    ensures Body(pages) == Body(pages[..k]) + PageBlock(pages[k]) + Body(pages[k + 1..])
  {
    var before, after := pages[..k], pages[k + 1..];
    SplitAround(pages, k);
    BodyAround(before, pages[k], after);
  }

  lemma SplitAround(pages: seq<Page>, k: nat)
    requires k < |pages|
    ensures pages == pages[..k] + ([pages[k]] + pages[k + 1..])
  {
  }

  lemma BodyAround(before: seq<Page>, page: Page, after: seq<Page>)
    ensures Body(before + ([page] + after)) == Body(before) + PageBlock(page) + Body(after)
  {
    BodyAppend(before, [page] + after);
    BodyAppend([page], after);
    BodyOnePage(page);
  }

  lemma BodyOnePage(page: Page)
    ensures Body([page]) == PageBlock(page)
  {
    assert [page][..0] == [];
  }

  /** Page cap: pages after the fifth never influence the direct text. */
  lemma PagesAfterFifthIgnored(pages: seq<Page>, later: seq<Page>)
    requires |pages| >= MaxDirectPages
    ensures DirectText(pages + later) == DirectText(pages)
  {
    assert (pages + later)[..MaxDirectPages] == pages[..MaxDirectPages];
  }

  /** A document with no pages gives the empty text. */
  lemma NoPagesNoText()
    ensures DirectText([]) == ""
  {
  }

  /** Blank bodies are exactly those whose every block is blank. */
  lemma {:induction false} BodyBlankIff(pages: seq<Page>)
    ensures AllWhitespace(Body(pages)) <==> BlankPages(pages)
  {
    if |pages| > 0 {
      var front, last := pages[..|pages| - 1], pages[|pages| - 1];
      BodyBlankIff(front);
      AllWhitespaceConcat(Body(front), PageBlock(last));
      AllWhitespaceConcat(PageText(last), PageTerminator);
      assert AllWhitespace(PageTerminator);
      BlankPagesSnoc(front, last);
      assert pages == front + [last];
    }
  }

  /** Every page's joined text is blank. */
  predicate BlankPages(pages: seq<Page>) {
    forall p :: 0 <= p < |pages| ==> AllWhitespace(PageText(pages[p]))
  }

  lemma BlankPagesSnoc(front: seq<Page>, last: Page)
    ensures BlankPages(front + [last]) <==> BlankPages(front) && AllWhitespace(PageText(last))
  {
    var pages := front + [last];
    if BlankPages(pages) {
      assert AllWhitespace(PageText(pages[|front|]));
      forall p | 0 <= p < |front| ensures AllWhitespace(PageText(front[p])) {
        assert pages[p] == front[p];
      }
    }
  }

  /** The direct text is empty exactly when every fragment on the pages read
      is blank: a scanned document without a text layer yields `''`. */
  lemma DirectTextEmptyIff(pages: seq<Page>)
    ensures DirectText(pages) == "" <==>
      forall p, f :: 0 <= p < PagesRead(|pages|) && 0 <= f < |pages[p]| ==> AllWhitespace(pages[p][f])
  {
    BodyBlankIff(pages[..PagesRead(|pages|)]);
  }

  /** `text.trim()` applied to what the recogniser returned for page 1. */
  function OcrText(recognized: string): (r: string)
    ensures Trimmed(r)
    ensures IsTrimOf(r, recognized)
  {
    Trim(recognized)
  }
}
