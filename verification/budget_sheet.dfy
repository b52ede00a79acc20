/** The budget-list extraction done when a spreadsheet is uploaded: from the
    cell matrix of the first worksheet, rows from the fifth on are read in
    columns D, E and F (description, unit, quantity), empty rows are dropped
    and the rest become `description | unit | quantity` lines under a header. */
module BudgetSheet {
  import opened JsString
  import opened Wrappers

  /** A cell value as the spreadsheet library hands it over: a missing cell
      reads as `undefined`. */
  datatype Cell = Undefined | Null | Str(text: string) | Num(value: real) | Bool(flag: bool)

  type Row = seq<Cell>

  /** JavaScript truthiness: `undefined`, `null`, `""`, `0` and `false` are falsy. */
  predicate Truthy(c: Cell) {
    match c
    case Undefined => false
    case Null => false
    case Str(s) => s != ""
    case Num(n) => n != 0.0
    case Bool(b) => b
  }

  /** The falsy cell values are exactly the five JavaScript ones; every
      other string, number and boolean is truthy. */
  lemma FalsyValues(c: Cell)
    ensures !Truthy(c) <==> c in {Undefined, Null, Str(""), Num(0.0), Bool(false)}
  {
  }

  /** How a cell prints inside a template literal; numbers are printed by
      `numText`, the engine's number-to-string conversion. */
  function TemplateText(c: Cell, numText: real -> string): string {
    match c
    case Undefined => "undefined"
    case Null => "null"
    case Str(s) => s
    case Num(n) => numText(n)
    case Bool(b) => if b then "true" else "false"
  }

  const DataStartRowIndex: nat := 4
  const DescriptionColumn: nat := 3
  const UnitColumn: nat := 4
  const QuantityColumn: nat := 5
  const Header: string := "Descri\U{E7}\U{E3}o | Unidade | Quantidade"

  /** `row[k]`: reading past the end of a row gives `undefined`. */
  function CellAt(row: Row, k: nat): Cell {
    if k < |row| then row[k] else Undefined
  }

  /** `c || ''`: a falsy cell is replaced by the empty string. */
  function OrEmpty(c: Cell): (v: Cell)
    ensures Truthy(v) <==> Truthy(c)
    ensures Truthy(c) ==> v == c
    ensures !Truthy(c) ==> v == Str("")
  {
    if Truthy(c) then c else Str("")
  }

  /** `c !== undefined && c !== null ? c : ''`: only the two nullish values
      are replaced, so a numeric `0` or `false` is kept. */
  function UnlessNullish(c: Cell): (v: Cell)
    ensures Truthy(v) <==> Truthy(c)
    ensures !c.Undefined? && !c.Null? ==> v == c
    ensures c.Undefined? || c.Null? ==> v == Str("")
  {
    if c.Undefined? || c.Null? then Str("") else c
  }

  /** The three values the loop derives from one row. */
  function Description(row: Row): Cell { OrEmpty(CellAt(row, DescriptionColumn)) }
  function Unit(row: Row): Cell { OrEmpty(CellAt(row, UnitColumn)) }
  function Quantity(row: Row): Cell { UnlessNullish(CellAt(row, QuantityColumn)) }

  /** The guard `description || unit || quantity`. */
  predicate Kept(row: Row) {
    Truthy(Description(row)) || Truthy(Unit(row)) || Truthy(Quantity(row))
  }

  /** A row is emitted exactly when one of its raw cells D, E, F is truthy:
      the replacements above never change truthiness. */
  lemma KeptIffSomeCellTruthy(row: Row)
    ensures Kept(row) <==>
      Truthy(CellAt(row, DescriptionColumn)) || Truthy(CellAt(row, UnitColumn))
        || Truthy(CellAt(row, QuantityColumn))
  {
  }

  /** The template `${description} | ${unit} | ${quantity}`. A blank
      description or unit prints as nothing, a truthy one as itself, and a
      missing quantity leaves the line ending in the separator. */
  function FormatRow(row: Row, numText: real -> string): (r: string)
    ensures !Truthy(CellAt(row, DescriptionColumn)) && !Truthy(CellAt(row, UnitColumn)) ==>
      r == " |  | " + TemplateText(Quantity(row), numText)
    ensures var d := TemplateText(CellAt(row, DescriptionColumn), numText);
      Truthy(CellAt(row, DescriptionColumn)) ==> |d| <= |r| && r[..|d|] == d
    ensures CellAt(row, QuantityColumn).Undefined? || CellAt(row, QuantityColumn).Null? ==>
      |r| >= 3 && r[|r| - 3..] == " | "
  {
    TemplateText(Description(row), numText) + " | " + TemplateText(Unit(row), numText)
      + " | " + TemplateText(Quantity(row), numText)
  }

  /** Indices of the rows at or after `from` that the loop emits, in order. */
  function KeptRows(sheet: seq<Row>, from: nat): (idx: seq<nat>)
    decreases |sheet| - from
    ensures forall k :: 0 <= k < |idx| ==> from <= idx[k] < |sheet| && Kept(sheet[idx[k]])
    ensures forall k, l :: 0 <= k < l < |idx| ==> idx[k] < idx[l]
    ensures forall j :: from <= j < |sheet| && Kept(sheet[j]) ==> j in idx
  {
    if from >= |sheet| then []
    else if Kept(sheet[from]) then [from] + KeptRows(sheet, from + 1)
    else KeptRows(sheet, from + 1)
  }

  /** The lines the loop pushes for the rows at or after `from`. */
  function RowLines(sheet: seq<Row>, from: nat, numText: real -> string): (lines: seq<string>)
    decreases |sheet| - from
  {
    if from >= |sheet| then []
    else
      var line := if Kept(sheet[from]) then [FormatRow(sheet[from], numText)] else [];
      line + RowLines(sheet, from + 1, numText)
  }

  /** One line is pushed per kept row. */
  lemma {:induction false} RowLinesCount(sheet: seq<Row>, from: nat, numText: real -> string)
    decreases |sheet| - from
    ensures |RowLines(sheet, from, numText)| == |KeptRows(sheet, from)|
  {
    if from < |sheet| {
      RowLinesCount(sheet, from + 1, numText);
    }
  }

  /** The pushed lines are the formatted kept rows, one per kept row, in row order. */
  lemma {:induction false} RowLinesAreKeptRows(sheet: seq<Row>, from: nat, numText: real -> string)
    decreases |sheet| - from
    ensures |RowLines(sheet, from, numText)| == |KeptRows(sheet, from)|
    ensures forall k :: 0 <= k < |KeptRows(sheet, from)| ==>
      RowLines(sheet, from, numText)[k] == FormatRow(sheet[KeptRows(sheet, from)[k]], numText)
  {
    RowLinesCount(sheet, from, numText);
    if from < |sheet| {
      RowLinesAreKeptRows(sheet, from + 1, numText);
      var rest, restIdx := RowLines(sheet, from + 1, numText), KeptRows(sheet, from + 1);
      if Kept(sheet[from]) {
        assert RowLines(sheet, from, numText) == [FormatRow(sheet[from], numText)] + rest;
        assert KeptRows(sheet, from) == [from] + restIdx;
      } else {
        assert RowLines(sheet, from, numText) == rest;
        assert KeptRows(sheet, from) == restIdx;
      }
    }
  }

  /** The loop `for (i = 4; i < sheetData.length; i++)` with its filter and
      `push`: the result lists every kept data row, formatted, in sheet order,
      and nothing else. */
  method ExtractBudgetLines(sheet: seq<Row>, numText: real -> string) returns (lines: seq<string>)
    ensures lines == RowLines(sheet, DataStartRowIndex, numText)
    ensures |lines| == |KeptRows(sheet, DataStartRowIndex)|
    ensures forall k :: 0 <= k < |lines| ==>
      lines[k] == FormatRow(sheet[KeptRows(sheet, DataStartRowIndex)[k]], numText)
  {
    lines := [];
    var i := DataStartRowIndex;
    while i < |sheet|
      invariant DataStartRowIndex <= i
      invariant i >= |sheet| ==> RowLines(sheet, i, numText) == []
      invariant lines + RowLines(sheet, i, numText) == RowLines(sheet, DataStartRowIndex, numText)
      decreases |sheet| - i
    {
      var row := sheet[i];
      if Kept(row) {
        lines := lines + [FormatRow(row, numText)];
      }
      i := i + 1;
    }
    RowLinesAreKeptRows(sheet, DataStartRowIndex, numText);
  }

  /** `extractedDataArray.join('\n')` when at least one item survived, `''`
      otherwise: the header line, then one line per kept data row. */
  function BudgetText(sheet: seq<Row>, numText: real -> string): (r: string)
    ensures r == "" <==> |KeptRows(sheet, DataStartRowIndex)| == 0
    ensures |KeptRows(sheet, DataStartRowIndex)| > 0 ==>
      r == Header + "\n" + Join(RowLines(sheet, DataStartRowIndex, numText), "\n")
  {
    var lines := RowLines(sheet, DataStartRowIndex, numText);
    RowLinesCount(sheet, DataStartRowIndex, numText);
    if |lines| > 0 then
      JoinHead(Header, lines, "\n");
      Join([Header] + lines, "\n")
    else ""
  }

  /** What a spreadsheet upload provides: no file chosen, or the file, whose
      parse either fails (`None`) or yields the first worksheet's rows. */
  datatype SheetFile = NoSheetFile | SheetFile(rows: Option<seq<Row>>)

  datatype SheetOutcome =
    | NoSheetSelected
    | SheetReadError
    | NoDataRows
    | BudgetData(data: string, items: nat)

  /** `handleExcelFileUpload`: the outcome of one spreadsheet upload. */
  function LoadSheet(file: SheetFile, numText: real -> string): (r: SheetOutcome)
    ensures r.BudgetData? <==>
      file.SheetFile? && file.rows.Some? && |KeptRows(file.rows.value, DataStartRowIndex)| > 0
    ensures r.BudgetData? ==> r.items == |KeptRows(file.rows.value, DataStartRowIndex)| > 0
    ensures r.BudgetData? ==> |r.data| > |Header| && r.data[..|Header| + 1] == Header + "\n"
    ensures r.BudgetData? ==> r.data == BudgetText(file.rows.value, numText)
  {
    match file
    case NoSheetFile => NoSheetSelected
    case SheetFile(rows) =>
      if rows.None? then SheetReadError
      else
        var lines := RowLines(rows.value, DataStartRowIndex, numText);
        RowLinesCount(rows.value, DataStartRowIndex, numText);
        if |lines| > 0 then
          BudgetData(BudgetText(rows.value, numText), |lines|)
        else NoDataRows
  }

  /** The data text left by an upload: `extractedExcelData`. */
  function SheetData(o: SheetOutcome): string {
    if o.BudgetData? then o.data else ""
  }

  /** Rows above the fifth never contribute: two sheets that agree from the
      fifth row on give the same budget text. */
  lemma {:induction false} LeadingRowsIgnored(a: seq<Row>, b: seq<Row>, from: nat, numText: real -> string)
    requires |a| == |b|
    requires forall j :: from <= j < |a| ==> a[j] == b[j]
    decreases |a| - from
    ensures RowLines(a, from, numText) == RowLines(b, from, numText)
  {
    if from < |a| {
      LeadingRowsIgnored(a, b, from + 1, numText);
    }
  }

  lemma HeaderRowsIgnored(a: seq<Row>, b: seq<Row>, numText: real -> string)
    requires |a| == |b|
    requires forall j :: DataStartRowIndex <= j < |a| ==> a[j] == b[j]
    ensures BudgetText(a, numText) == BudgetText(b, numText)
  {
    LeadingRowsIgnored(a, b, DataStartRowIndex, numText);
  }

  /** The budget text is empty exactly when no data row has a truthy D, E or F. */
  lemma BudgetTextEmptyIff(sheet: seq<Row>, numText: real -> string)
    ensures BudgetText(sheet, numText) == "" <==>
      forall j :: DataStartRowIndex <= j < |sheet| ==> !Kept(sheet[j])
  {
    RowLinesAreKeptRows(sheet, DataStartRowIndex, numText);
    var lines := RowLines(sheet, DataStartRowIndex, numText);
    if |lines| > 0 {
      JoinHead(Header, lines, "\n");
      var idx := KeptRows(sheet, DataStartRowIndex);
      assert DataStartRowIndex <= idx[0] < |sheet| && Kept(sheet[idx[0]]);
    }
  }

  /** A row whose only value is a quantity of `0` is dropped, although the
      quantity mapping keeps `0` rather than turning it into `''`. */
  lemma ZeroQuantityAloneDropped(row: Row)
    requires !Truthy(CellAt(row, DescriptionColumn)) && !Truthy(CellAt(row, UnitColumn))
    requires CellAt(row, QuantityColumn) == Num(0.0)
    ensures Quantity(row) == Num(0.0)
    ensures !Kept(row)
  {
  }

  /** Next to a description, a zero quantity does print, as the number text of `0`. */
  lemma ZeroQuantityPrinted(row: Row, numText: real -> string)
    requires Truthy(CellAt(row, DescriptionColumn))
    requires CellAt(row, QuantityColumn) == Num(0.0)
    ensures Kept(row)
    ensures FormatRow(row, numText) ==
      TemplateText(CellAt(row, DescriptionColumn), numText) + " | "
        + TemplateText(Unit(row), numText) + " | " + numText(0.0)
  {
  }

  /** When neither the header nor any cell text holds a line break, the budget
      text has exactly one line per item plus the header line. */
  lemma {:induction false} LineCountIsItemsPlusOne(sheet: seq<Row>, numText: real -> string)
    requires |KeptRows(sheet, DataStartRowIndex)| > 0
    requires forall k :: 0 <= k < |RowLines(sheet, DataStartRowIndex, numText)| ==>
      '\n' !in RowLines(sheet, DataStartRowIndex, numText)[k]
    ensures multiset(BudgetText(sheet, numText))['\n'] == |KeptRows(sheet, DataStartRowIndex)|
  {
    var lines := RowLines(sheet, DataStartRowIndex, numText);
    RowLinesCount(sheet, DataStartRowIndex, numText);
    assert multiset(Join([Header] + lines, "\n"))['\n'] == |lines| by {
      HeaderHasNoLineBreak();
      HeadedLineCount(Header, lines);
    }
    assert BudgetText(sheet, numText) == Join([Header] + lines, "\n");
  }

  lemma HeaderHasNoLineBreak()
    ensures '\n' !in Header
  {
  }

  lemma HeadedLineCount(head: string, lines: seq<string>)
    requires '\n' !in head
    requires forall k :: 0 <= k < |lines| ==> '\n' !in lines[k]
    ensures multiset(Join([head] + lines, "\n"))['\n'] == |lines|
  {
    var parts := [head] + lines;
    forall k | 0 <= k < |parts| ensures '\n' !in parts[k] {
      if k > 0 { assert parts[k] == lines[k - 1]; }
    }
    JoinSeparatorCount(parts, '\n');
  }
}
