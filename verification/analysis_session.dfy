/** The page's two module-level texts (`extractedExcelData`,
    `extractedPdfText`) and the analyze button, as an explicit session record
    with one transition per user action. */
module AnalysisSession {
  import opened BudgetSheet
  import opened PdfUpload

  datatype Session = Session(excelData: string, pdfText: string, analyzeEnabled: bool)

  /** Both texts are present: the condition at both readiness checks. */
  predicate Ready(s: Session) {
    s.excelData != "" && s.pdfText != ""
  }

  /** The button reflects readiness, as `checkAnalysisReadiness` leaves it. */
  predicate Consistent(s: Session) {
    s.analyzeEnabled == Ready(s)
  }

  /** The page as loaded: no texts yet and the button disabled. */
  const Initial: Session := Session("", "", false)

  const NotLoadedMessage: string := "Certifique-se de que tanto o XLSX quanto o PDF foram carregados."

  /** `checkAnalysisReadiness`, run by every status update. */
  function CheckReadiness(s: Session): (t: Session)
    ensures Consistent(t)
    ensures t.excelData == s.excelData && t.pdfText == s.pdfText
  {
    s.(analyzeEnabled := Ready(s))
  }

  /** A spreadsheet upload: the budget text is reset, then set to the
      extracted data only when rows survived. The PDF text is untouched. */
  function UploadSheet(s: Session, file: SheetFile, numText: real -> string): (t: Session)
    ensures Consistent(t)
    ensures t.pdfText == s.pdfText
    ensures t.excelData != "" <==> LoadSheet(file, numText).BudgetData?
    ensures t.excelData != "" ==> t.excelData == LoadSheet(file, numText).data
  {
    CheckReadiness(s.(excelData := SheetData(LoadSheet(file, numText))))
  }

  /** A PDF upload: the document text is reset, then set to the final text
      only when it is non-empty. The budget text is untouched. */
  function UploadPdf(s: Session, file: PdfFile): (t: Session)
    ensures Consistent(t)
    ensures t.excelData == s.excelData
    ensures t.pdfText != "" <==> ProcessPdf(file).Extracted?
    ensures t.pdfText != "" ==> t.pdfText == ProcessPdf(file).text
  {
    CheckReadiness(s.(pdfText := PdfData(ProcessPdf(file))))
  }

  /** What a click on the analyze button produces. */
  datatype Action =
    | RunAnalysis(budget: string, document: string)
    | ShowNotLoaded(message: string)

  /** The click handler: analysis is dispatched with the two texts only when
      both are present; otherwise only the reminder is shown. The analysis
      disables the button while running and re-enables it when done. */
  function ClickAnalyze(s: Session): (r: (Action, Session))
    ensures r.0.RunAnalysis? <==> Ready(s)
    ensures r.0.RunAnalysis? ==> r.0.budget == s.excelData && r.0.document == s.pdfText
    ensures r.0.ShowNotLoaded? ==> r.0.message == NotLoadedMessage
    ensures r.1.excelData == s.excelData && r.1.pdfText == s.pdfText
    ensures Consistent(s) ==> r.1 == s
  {
    if s.excelData != "" && s.pdfText != "" then
      (RunAnalysis(s.excelData, s.pdfText), s.(analyzeEnabled := true))
    else
      (ShowNotLoaded(NotLoadedMessage), s)
  }

  datatype Event =
    | SheetChosen(sheet: SheetFile)
    | PdfChosen(pdf: PdfFile)
    | AnalyzeClicked

  /** One event applied to the session, with the actions it produced. A
      disabled button fires no click, so the handler runs only when enabled.
      From a consistent session, a click dispatches exactly when both texts
      are present and never shows the reminder. */
  function Step(s: Session, e: Event, numText: real -> string): (r: (Session, seq<Action>))
    ensures !e.AnalyzeClicked? ==> r.1 == [] && Consistent(r.0)
    ensures e.AnalyzeClicked? ==> r.0.excelData == s.excelData && r.0.pdfText == s.pdfText
    ensures e.AnalyzeClicked? && !s.analyzeEnabled ==> r == (s, [])
    ensures Consistent(s) ==> Consistent(r.0)
    ensures Consistent(s) && e.AnalyzeClicked? ==>
      (|r.1| > 0 <==> Ready(s)) && forall k :: 0 <= k < |r.1| ==> r.1[k] == RunAnalysis(s.excelData, s.pdfText)
  {
    match e
    case SheetChosen(f) => (UploadSheet(s, f, numText), [])
    case PdfChosen(f) => (UploadPdf(s, f), [])
    case AnalyzeClicked =>
      if !s.analyzeEnabled then (s, [])
      else
        var (a, t) := ClickAnalyze(s);
        (t, [a])
  }

  /** A sequence of events applied in order, with all actions produced. */
  function Run(s: Session, events: seq<Event>, numText: real -> string): (r: (Session, seq<Action>))
    decreases |events|
    ensures |r.1| <= |events|
  {
    if |events| == 0 then (s, [])
    else
      var (t, acts) := Step(s, events[0], numText);
      var (u, more) := Run(t, events[1..], numText);
      (u, acts + more)
  }

  /** Whatever happens, the button keeps reflecting readiness, every
      analysis ever dispatched receives two non-empty texts, and the reminder
      is never shown, since the button is disabled whenever it would be. */
  lemma {:induction false} RunKeepsGate(s: Session, events: seq<Event>, numText: real -> string)
    requires Consistent(s)
    decreases |events|
    ensures Consistent(Run(s, events, numText).0)
    ensures forall k :: 0 <= k < |Run(s, events, numText).1| ==>
      var a := Run(s, events, numText).1[k];
      a.RunAnalysis? && a.budget != "" && a.document != ""
  {
    if |events| > 0 {
      var (t, acts) := Step(s, events[0], numText);
      RunKeepsGate(t, events[1..], numText);
      var (u, more) := Run(t, events[1..], numText);
      assert Run(s, events, numText).1 == acts + more;
    }
  }

  /** The page as loaded, with no text and the button disabled, is consistent,
      so the gate holds over every session the page can go through. */
  lemma PageSessionsKeepGate(events: seq<Event>, numText: real -> string)
    ensures Consistent(Run(Initial, events, numText).0)
    ensures forall k :: 0 <= k < |Run(Initial, events, numText).1| ==>
      Run(Initial, events, numText).1[k].RunAnalysis?
  {
    RunKeepsGate(Initial, events, numText);
  }

  /** After the first upload the button reflects readiness whatever state
      the page started in. */
  lemma FirstUploadSetsGate(s: Session, e: Event, numText: real -> string)
    requires !e.AnalyzeClicked?
    ensures Consistent(Step(s, e, numText).0)
  {
  }

  /** Uploads reset their text first: what an upload leaves does not depend
      on what the previous upload of the same kind left. */
  lemma NoStaleText(s: Session, s': Session, sheet: SheetFile, pdf: PdfFile, numText: real -> string)
    ensures UploadSheet(s, sheet, numText).excelData == UploadSheet(s', sheet, numText).excelData
    ensures UploadPdf(s, pdf).pdfText == UploadPdf(s', pdf).pdfText
  {
  }

  /** A PDF upload that finds no text, or throws, disables analysis: a click
      that follows produces nothing and changes nothing. */
  lemma FailedPdfUploadBlocksAnalysis(s: Session, file: PdfFile, numText: real -> string)
    requires !ProcessPdf(file).Extracted?
    ensures !UploadPdf(s, file).analyzeEnabled
    ensures Step(UploadPdf(s, file), AnalyzeClicked, numText) == (UploadPdf(s, file), [])
  {
  }
}
