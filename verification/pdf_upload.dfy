/** The PDF upload flow: direct extraction first; when its text is shorter
    than 50 characters, OCR of page 1, kept only if strictly longer; an empty
    final text is a failure, as is any exception along the way. */
module PdfUpload {
  import opened Wrappers
  import opened JsString
  import opened PdfText

  /** Below this many characters (`.length`) the direct text is not trusted. */
  const DirectTextMinLength: nat := 50

  predicate DirectSufficient(direct: string) {
    Utf16Length(direct) >= DirectTextMinLength
  }

  /** The choice made once OCR has produced `ocr`: the OCR text replaces the
      direct text only when strictly longer, so ties keep the direct text. */
  function ChooseText(direct: string, ocr: string): (r: string)
    ensures r == direct || r == ocr
    ensures Utf16Length(r) >= Utf16Length(direct) && Utf16Length(r) >= Utf16Length(ocr)
    ensures Utf16Length(ocr) <= Utf16Length(direct) ==> r == direct
  {
    if Utf16Length(ocr) > Utf16Length(direct) then ocr else direct
  }

  /** What one PDF upload provides: no file chosen, or a file together with
      what the two foreign engines make of it. `document` is `None` when
      pdf.js cannot load or read it; `recognition` is the raw text Tesseract
      returns for the rendered first page, `None` when rendering or
      recognition throws. */
  datatype PdfFile =
    | NoPdfFile
    | PdfFile(document: Option<seq<Page>>, recognition: Option<string>)

  /** The stage at which an exception ended the flow. */
  datatype FailedStage = DocumentStage | OcrStage

  datatype PdfOutcome =
    | NoPdfSelected
    /** `finalExtractedText` was non-empty; `ocrRan` tells whether OCR was invoked. */
    | Extracted(text: string, ocrRan: bool)
    /** Every attempt came back empty. */
    | NoTextFound(ocrRan: bool)
    | Failed(stage: FailedStage)

  function Conclude(text: string, ocrRan: bool): (r: PdfOutcome)
    ensures r.Extracted? || r.NoTextFound?
    ensures r.ocrRan == ocrRan
    ensures r.Extracted? <==> text != ""
    ensures r.Extracted? ==> r.text == text
  {
    if text != "" then Extracted(text, ocrRan) else NoTextFound(ocrRan)
  }

  /** `handlePdfFileUpload`. Page 1 has to exist for OCR: on an empty document
      `getPage(1)` rejects, which ends the flow like any other exception. */
  function ProcessPdf(file: PdfFile): (r: PdfOutcome)
    ensures file.NoPdfFile? <==> r.NoPdfSelected?
    ensures file.PdfFile? && file.document.None? ==> r == Failed(DocumentStage)
    ensures file.PdfFile? && file.document.Some? && file.recognition.None? ==>
      r == if DirectSufficient(DirectText(file.document.value))
        then Extracted(DirectText(file.document.value), false) else Failed(OcrStage)
    ensures r.Extracted? ==> r.text != ""
  {
    match file
    case NoPdfFile => NoPdfSelected
    case PdfFile(document, recognition) =>
      match document
      case None => Failed(DocumentStage)
      case Some(pages) =>
        var direct := DirectText(pages);
        if DirectSufficient(direct) then Conclude(direct, false)
        else if |pages| == 0 || recognition.None? then Failed(OcrStage)
        else Conclude(ChooseText(direct, OcrText(recognition.value)), true)
  }

  /** `extractedPdfText` after the upload: set only to a non-empty final text. */
  function PdfData(o: PdfOutcome): string {
    if o.Extracted? then o.text else ""
  }

  /** A direct text of at least 50 characters is used and OCR never runs,
      whatever the recogniser would have said. */
  lemma SufficientDirectTextSkipsOcr(pages: seq<Page>, recognition: Option<string>)
    requires DirectSufficient(DirectText(pages))
    ensures ProcessPdf(PdfFile(Some(pages), recognition)) == Extracted(DirectText(pages), false)
  {
  }

  /** Below the threshold OCR runs, and its text wins exactly when strictly longer. */
  lemma ShortDirectTextConsultsOcr(pages: seq<Page>, recognized: string)
    requires !DirectSufficient(DirectText(pages)) && |pages| > 0
    ensures var r := ProcessPdf(PdfFile(Some(pages), Some(recognized)));
      var direct, ocr := DirectText(pages), OcrText(recognized);
      && r.ocrRan
      && (r.Extracted? && Utf16Length(ocr) > Utf16Length(direct) ==> r.text == ocr)
      && (r.Extracted? && Utf16Length(ocr) <= Utf16Length(direct) ==> r.text == direct)
      && (r.Extracted? ==> Utf16Length(r.text) == Max(Utf16Length(direct), Utf16Length(ocr)))
  {
  }

  /** A document without pages never reaches a text: the direct text is
      empty and fetching page 1 for OCR throws. */
  lemma EmptyDocumentFails(recognition: Option<string>)
    ensures ProcessPdf(PdfFile(Some([]), recognition)) == Failed(OcrStage)
  {
    NoPagesNoText();
  }

  function Max(a: nat, b: nat): nat { if a >= b then a else b }

  /** Once the document has loaded and OCR (if needed) did not throw, the
      upload fails to find text exactly when both texts are empty. */
  lemma NoTextIffBothEmpty(pages: seq<Page>, recognized: string)
    requires |pages| > 0
    ensures ProcessPdf(PdfFile(Some(pages), Some(recognized))).NoTextFound? <==>
      DirectText(pages) == "" && OcrText(recognized) == ""
  {
  }

  /** The final text, when there is one, is one of the two candidates, and
      the OCR text is only ever the choice after OCR ran. */
  lemma FinalTextIsACandidate(pages: seq<Page>, recognition: Option<string>)
    ensures var r := ProcessPdf(PdfFile(Some(pages), recognition));
      r.Extracted? ==>
        r.text == DirectText(pages) || (r.ocrRan && recognition.Some? && r.text == OcrText(recognition.value))
  {
  }
}
