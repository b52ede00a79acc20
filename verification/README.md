# Ler-PDF page logic, modelled in Dafny

The page compares a budget spreadsheet with a PDF. `script.js` reads
columns D, E and F of the spreadsheet into a list of
`Descrição | Unidade | Quantidade` lines. It reads the PDF's embedded text
from at most five pages and falls back to OCR of page 1 when that text is
short. It keeps both texts in two module-level variables and lets the
analyze button dispatch an analysis only when both are present. This
project models those four pieces of sequential logic as pure functions
over strings and sequences and proves their contracts.

Modules (one per concern, in dependency order):

- `Wrappers` (`wrappers.dfy`): `Option`, used for a foreign call that either returns or throws.
- `JsString` (`js_string.dfy`): the JavaScript string operations used:
  `trim` over the ECMAScript WhiteSpace and LineTerminator characters,
  `Array.prototype.join`, and `.length` counted in UTF-16 code units.
- `BudgetSheet` (`budget_sheet.dfy`): the spreadsheet cell model with JS
  truthiness, the row filter and format loop, and the spreadsheet upload outcome.
- `PdfText` (`pdf_text.dfy`): direct text assembly over a document given as
  pages of text fragments, and the trim applied to OCR output.
- `PdfUpload` (`pdf_upload.dfy`): the 50-character sufficiency threshold,
  the strict-longer OCR choice, and the failure outcomes of a PDF upload.
- `AnalysisSession` (`analysis_session.dfy`): the two global texts and the
  button as a session record, with upload, readiness and click transitions.

## Model

| member | source | states |
|---|---|---|
| `JsString.Utf16Length` | script.js:163-167 | `.length` is at least the number of characters and at most twice it, and is 0 exactly for the empty string; it equals the number of characters when all lie in the Basic Multilingual Plane, and a single character outside it counts 2 |
| `JsString.Utf16LengthConcat` | script.js:163-167 | `.length` of a concatenation is the sum of the two lengths, so with the one-character case every string's length is its count of UTF-16 code units |
| `JsString.Join` | script.js:209 | joining no parts gives `''` |
| `JsString.JoinEnds` | script.js:117 | a join starts with its first part and ends with its last |
| `JsString.Trim` | script.js:212 | the result has no whitespace at either end, is a slice of the input obtained by cutting only whitespace from the two ends, and is empty exactly when the input is all whitespace |
| `JsString.TrimUnique` | script.js:212 | any slice with whitespace-free ends that is left after cutting only whitespace from both ends is the trim, so trim is fully determined by that description |
| `JsString.TrimIdempotent` | script.js:248 | trimming already-trimmed text changes nothing |
| `JsString.JoinAllWhitespace` | script.js:209 | with a blank separator, a join is blank exactly when every part is blank |
| `JsString.JoinSeparatorCount` | script.js:114-117 | joining parts that hold no newline with `'\n'` yields exactly one newline fewer than there are parts |
| `JsString.JoinHead` | script.js:117 | joining a header before a non-empty list puts the header and then the separator at the front |
| `BudgetSheet.FalsyValues` | script.js:108 | the falsy cells are exactly `undefined`, `null`, `''`, `0` and `false` |
| `BudgetSheet.OrEmpty` | script.js:102-103 | the falsy-to-empty mapping of description and unit preserves truthiness, keeps every truthy cell unchanged and turns every falsy cell into `''` |
| `BudgetSheet.UnlessNullish` | script.js:104-105 | the quantity mapping preserves truthiness, keeps every non-nullish cell, `0` included, and turns `undefined` and `null` into `''` |
| `BudgetSheet.FormatRow` | script.js:102-109 | a row with blank description and unit prints as two empty fields before the quantity; a truthy description prints verbatim at the start; a missing quantity leaves the line ending in the separator |
| `BudgetSheet.RowLinesCount` | script.js:98-110 | the loop pushes one line per kept row |
| `BudgetSheet.KeptIffSomeCellTruthy` | script.js:102-108 | a row is emitted exactly when its raw cell D, E or F is truthy |
| `BudgetSheet.KeptRows` | script.js:98-110 | the emitted row indices lie in the data range, are strictly increasing, all pass the guard, and every data row that passes the guard is among them |
| `BudgetSheet.RowLinesAreKeptRows` | script.js:98-110 | the pushed lines correspond one to one and in order to the kept rows, each formatted by the row template |
| `BudgetSheet.ExtractBudgetLines` | script.js:92-111 | the loop from index 4 returns, for the k-th kept data row, exactly its formatted line, and has no other lines |
| `BudgetSheet.BudgetText` | script.js:114-124 | the budget text is `''` exactly when no data row is kept, and otherwise is the header, a newline, and the kept rows' lines joined by newlines |
| `BudgetSheet.LoadSheet` | script.js:63-131 | data is produced exactly when a parsed sheet has a kept data row; the item count is the number of kept rows; the data starts with the header line and a newline and is the budget text of the parsed rows |
| `BudgetSheet.LeadingRowsIgnored` | script.js:98 | the lines read from a given row on depend only on the rows from there on |
| `BudgetSheet.HeaderRowsIgnored` | script.js:92-98 | two sheets that agree from the fifth row on give the same budget text |
| `BudgetSheet.BudgetTextEmptyIff` | script.js:114-124 | the budget text is `''`, rather than just the header, exactly when no data row passes the guard |
| `BudgetSheet.ZeroQuantityAloneDropped` | script.js:104-110 | a row whose only value is a quantity `0` keeps the `0` through the mapping but is still dropped |
| `BudgetSheet.ZeroQuantityPrinted` | script.js:104-109 | next to a description a zero quantity is emitted, printed as the number text of `0` |
| `BudgetSheet.LineCountIsItemsPlusOne` | script.js:113-117 | when no cell text holds a line break, the budget text has one newline per item, so it has items + 1 lines |
| `PdfText.PagesRead` | script.js:204 | the number of pages read is at most 5 and at most the page count, and equals one of them |
| `PdfText.PageText` | script.js:209 | a page's joined text is blank exactly when each of its fragments is blank, and `''` for a page without fragments |
| `PdfText.Body` | script.js:206-211 | the concatenated page blocks are empty exactly when there are no pages |
| `PdfText.DirectText` | script.js:197-213 | the direct text has no whitespace at either end and is the whitespace-trimmed concatenation of the blocks of the pages read |
| `PdfText.ExtractTextFromPdf` | script.js:202-212 | the page loop `fullText += pageText + '\n\n'` followed by one trim yields that same trimmed concatenation |
| `PdfText.BodyAppend` | script.js:206-211 | appending pages appends their blocks |
| `PdfText.PageBlockInOrder` | script.js:206-211 | page k's block comes after the blocks of all earlier pages and before those of all later pages |
| `PdfText.PagesAfterFifthIgnored` | script.js:203-204 | pages after the fifth never change the direct text |
| `PdfText.NoPagesNoText` | script.js:202-212 | a document with no pages gives `''` |
| `PdfText.BodyBlankIff` | script.js:209-210 | the concatenated page blocks are blank exactly when every page's joined text is blank |
| `PdfText.DirectTextEmptyIff` | script.js:204-212 | the direct text is empty exactly when every fragment of every page read is blank |
| `PdfText.OcrText` | script.js:248 | OCR output has no whitespace at either end and is the recognised text with only edge whitespace cut |
| `PdfUpload.ChooseText` | script.js:160-172 | the choice is one of the two texts and at least as long as both, so its length is their maximum; OCR text that is not strictly longer leaves the direct text |
| `PdfUpload.Conclude` | script.js:178-185 | the upload yields text exactly when the final text is non-empty, and then yields that text |
| `PdfUpload.ProcessPdf` | script.js:140-191 | no file gives the no-file outcome and nothing else does; an unloadable document fails at the document stage; when OCR throws, the upload fails at the OCR stage unless the direct text already reached 50; an extracted text is never empty |
| `PdfUpload.SufficientDirectTextSkipsOcr` | script.js:163-174 | a direct text of length ≥ 50 is the final text and OCR is not run, whatever the recogniser would return |
| `PdfUpload.ShortDirectTextConsultsOcr` | script.js:163-172 | below 50, OCR runs; OCR text wins when strictly longer, the direct text wins on ties or when longer, and the final length is the maximum of the two |
| `PdfUpload.EmptyDocumentFails` | script.js:163-165 | a page-less document never reaches a text, because fetching page 1 for OCR throws |
| `PdfUpload.NoTextIffBothEmpty` | script.js:178-185 | with a loaded document and OCR that does not throw, "no text extracted" happens exactly when both direct and OCR texts are empty |
| `PdfUpload.FinalTextIsACandidate` | script.js:160-172 | the final text is the direct text, or the OCR text, and the latter only after OCR ran |
| `AnalysisSession.CheckReadiness` | script.js:50-58 | afterwards the button is enabled exactly when both texts are non-empty, and the texts are unchanged |
| `AnalysisSession.UploadSheet` | script.js:63-131 | the budget text is non-empty exactly when the upload produced data, and then equals it; the PDF text is untouched; the button matches readiness |
| `AnalysisSession.UploadPdf` | script.js:140-191 | the PDF text is non-empty exactly when the upload extracted text, and then equals it; the budget text is untouched; the button matches readiness |
| `AnalysisSession.ClickAnalyze` | script.js:29-35 | analysis is dispatched exactly when both texts are non-empty, with those two texts; otherwise only the reminder message is shown; a consistent session is left as it was |
| `AnalysisSession.Step` | script.js:29-58 | an upload produces no action and leaves the button matching readiness; a click on a disabled button does nothing; from a consistent session a click dispatches the analysis of the two texts exactly when both are present, and nothing else |
| `AnalysisSession.Run` | script.js:25-35 | a sequence of events produces at most one action per event |
| `AnalysisSession.RunKeepsGate` | script.js:29-58 | over any sequence of uploads and clicks the button keeps matching readiness, every action is a dispatched analysis, and it receives two non-empty texts; the reminder is never shown |
| `AnalysisSession.PageSessionsKeepGate` | script.js:9-10 | starting from the page as loaded, with both texts empty and the button disabled, the gate holds and every action is an analysis |
| `AnalysisSession.FirstUploadSetsGate` | script.js:40-58 | after any upload the button matches readiness, whatever state the page started in |
| `AnalysisSession.NoStaleText` | script.js:65-66 | what an upload leaves in its text does not depend on what an earlier upload left there |
| `AnalysisSession.FailedPdfUploadBlocksAnalysis` | script.js:182-189 | a PDF upload that finds no text or throws disables the button, and a click then produces no action and changes nothing |

## Left out

- File picking, `FileReader`, SheetJS parsing and pdf.js loading are foreign calls. The model takes their results as inputs: the cell matrix, the pages of text fragments, or `None` when the call throws.
- Page rendering to the canvas, `toDataURL` and Tesseract recognition are foreign calls. The raw recognised text of page 1 is an input. It is `None` when any step of the OCR path throws: the second `getDocument` load, `getPage(1)` (script.js:219-222), rendering or recognition. Whether pdf.js's transfer of the first load's buffer makes the second load always throw depends on pdf.js internals and is not modelled; the recognised text is an unconstrained input, so both cases are covered.
- The OCR progress callback is left out because it only reports status and uses float arithmetic.
- The Gemini request in `analyzeTextWithAI` is network I/O and is left out. The prompt text, the JSON handling and the error messages go with it. A click is modelled up to the dispatched analysis and its two texts.
- Status messages, colours, button labels, console logging and the text written into output elements are DOM output and are left out. The model keeps only the outcome kind of each upload.
- The `async`/`await` interleavings are left out because each transition is modelled as atomic. These include an upload that finishes while an analysis is running, after which the analysis's `finally` re-enables the button whatever the readiness.
- The initial enabled state of the button comes from the page markup, which is not part of this model. `AnalysisSession.Initial` takes it as disabled; `FirstUploadSetsGate` shows that it stops mattering after the first upload either way.
- A click on a disabled button fires no event, so `AnalysisSession.Step` ignores it. The reminder of `ClickAnalyze` is then reachable only from a session whose button is out of step with the texts, such as an enabled button in the markup before any upload.
- `BudgetSheet.TemplateText`: the engine's number-to-string conversion is a parameter, not a model of JavaScript number formatting.
- `BudgetSheet.Truthy`: numbers are exact reals, so `NaN` and the infinities are not modelled. Date objects and other object-valued cells are not modelled either. SheetJS with default options does not produce them as cell values.
- Rows are modelled as arrays. A missing cell reads as `undefined`. An entirely missing row inside the matrix, which would throw in `row[3]`, is not modelled.
- `PdfUpload.ProcessPdf` keeps the stage of an exception in `FailedStage`, but the page reacts the same way to both stages: one catch block, one message. A document without pages is not rejected when it is loaded. `script.js` only fails on it when OCR fetches page 1, so the model reports it as an OCR-stage failure (`PdfUpload.EmptyDocumentFails`).
- OCR of every page, page-boundary markers and per-page method tags are not in `script.js` and are not modelled.
