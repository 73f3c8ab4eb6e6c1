/** The text of the CSV export: a header line and one line per transaction,
    in list order, cells joined by commas. The display date and the text of
    the amount come from locale and number formatting and are parameters:
    `displayDate` is `formatDateForDisplay` and `amountText` is
    `Number#toString`. */
module CsvExport {
  import opened Wrappers
  import opened Strings
  import opened Types
  import opened Categories
  import CsvImport

  const HeaderCells: seq<string> := ["Date", "Type", "Category", "Description", "Amount", "Recurring", "Tags"]

  /** The header line. */
  function HeaderLine(): string {
    Join(HeaderCells, ",")
  }

  /** `Yes` for a recurring transaction, `No` otherwise. */
  function RecurringCell(isRecurring: bool): (r: string)
    ensures r == "Yes" <==> isRecurring
    ensures r == "No" <==> !isRecurring
  {
    if isRecurring then "Yes" else "No"
  }

  /** The tags joined by `, `, or nothing without tags. */
  function TagsCell(tags: Option<seq<string>>): (r: string)
    ensures tags.None? ==> r == ""
    ensures tags.Some? && |tags.value| == 1 ==> r == tags.value[0]
  {
    if tags.Some? then Join(tags.value, ", ") else ""
  }

  /** The seven cells of one transaction, in header order; the category
      cell is the category's label, not its identifier. */
  function Cells(t: Transaction, displayDate: string -> string, amountText: real -> string): seq<string> {
    CellsWith(t, Label(t.category), displayDate, amountText)
  }

  /** The cells with `labelText` in the category column. */
  function CellsWith(t: Transaction, labelText: string, displayDate: string -> string, amountText: real -> string): (r: seq<string>)
    ensures |r| == 7
    ensures r[0] == displayDate(t.date) && r[1] == t.kind && r[2] == labelText
    ensures r[3] == t.description && r[4] == amountText(t.amount)
    ensures r[5] == RecurringCell(t.isRecurring) && r[6] == TagsCell(t.tags)
  {
    [displayDate(t.date), t.kind, labelText, t.description, amountText(t.amount),
     RecurringCell(t.isRecurring), TagsCell(t.tags)]
  }

  function RowLine(t: Transaction, displayDate: string -> string, amountText: real -> string): string {
    Join(Cells(t, displayDate, amountText), ",")
  }

  function RowLineOf(displayDate: string -> string, amountText: real -> string): Transaction -> string {
    (t: Transaction) => RowLine(t, displayDate, amountText)
  }

  /** The header line followed by the line of each transaction. */
  function Lines(ts: seq<Transaction>, row: Transaction -> string): (r: seq<string>)
    ensures |r| == |ts| + 1
    ensures r[0] == HeaderLine()
    ensures forall i :: 0 <= i < |ts| ==> r[i + 1] == row(ts[i])
  {
    [HeaderLine()] + seq(|ts|, i requires 0 <= i < |ts| => row(ts[i]))
  }

  /** `csvContent`: the lines joined by line breaks. */
  function Content(ts: seq<Transaction>, displayDate: string -> string, amountText: real -> string): string {
    Join(Lines(ts, RowLineOf(displayDate, amountText)), "\n")
  }

  /** The file always starts with the header line. */
  lemma ContentStartsWithHeader(ts: seq<Transaction>, displayDate: string -> string, amountText: real -> string)
    ensures HeaderLine() <= Content(ts, displayDate, amountText)
  {
    JoinStartsWithFirst(Lines(ts, RowLineOf(displayDate, amountText)), "\n");
  }

  /** When no line holds a line break, reading the file back line by line
      gives the header and then one line per transaction, in order: n + 1
      lines. */
  lemma ContentLines(ts: seq<Transaction>, displayDate: string -> string, amountText: real -> string)
    requires forall i :: 0 <= i < |ts| ==> '\n' !in RowLineOf(displayDate, amountText)(ts[i])
    ensures Split(Content(ts, displayDate, amountText), '\n') == Lines(ts, RowLineOf(displayDate, amountText))
    ensures |Split(Content(ts, displayDate, amountText), '\n')| == |ts| + 1
  {
    LinesSplit(ts, RowLineOf(displayDate, amountText));
  }

  lemma LinesSplit(ts: seq<Transaction>, row: Transaction -> string)
    requires forall i :: 0 <= i < |ts| ==> '\n' !in row(ts[i])
    ensures Split(Join(Lines(ts, row), "\n"), '\n') == Lines(ts, row)
  {
    var lines := Lines(ts, row);
    HeaderHasNoBreak();
    forall i | 0 <= i < |lines|
      ensures '\n' !in lines[i]
    {
      if i > 0 {
        assert lines[i] == row(ts[i - 1]);
      }
    }
    SplitJoin(lines, '\n');
  }

  lemma HeaderHasNoBreak()
    ensures '\n' !in HeaderLine()
  {
    HeaderCellsFree();
    JoinWithout(HeaderCells, ',', '\n');
  }

  lemma HeaderCellsFree()
    ensures forall i :: 0 <= i < |HeaderCells| ==> ',' !in HeaderCells[i] && '\n' !in HeaderCells[i]
  {
  }

  /** Read back at commas, the header line gives the seven column names. */
  lemma HeaderColumns()
    ensures Split(HeaderLine(), ',') == HeaderCells
  {
    HeaderCellsFree();
    SplitJoin(HeaderCells, ',');
  }

  /** When no cell holds a comma, a row line splits back into its seven
      cells: the display date, the type, the category's label, the
      description, the amount, `Yes` or `No`, and the tags. */
  lemma RowCells(t: Transaction, displayDate: string -> string, amountText: real -> string)
    requires forall i :: 0 <= i < 7 ==> ',' !in Cells(t, displayDate, amountText)[i]
    ensures Split(RowLine(t, displayDate, amountText), ',') == Cells(t, displayDate, amountText)
    ensures |Split(RowLine(t, displayDate, amountText), ',')| == |HeaderCells|
  {
    SplitJoin(Cells(t, displayDate, amountText), ',');
  }

  /** Each row's cells, in header order: the category column holds the
      category's label, the recurring column `Yes` exactly for a recurring
      transaction, and the tags column nothing when there are no tags. */
  lemma CellsMeaning(t: Transaction, displayDate: string -> string, amountText: real -> string)
    ensures |Cells(t, displayDate, amountText)| == |HeaderCells|
    ensures Cells(t, displayDate, amountText)[2] == Label(t.category)
    ensures Cells(t, displayDate, amountText)[5] == "Yes" <==> t.isRecurring
    ensures Cells(t, displayDate, amountText)[5] == "No" <==> !t.isRecurring
    ensures t.tags.None? ==> Cells(t, displayDate, amountText)[6] == ""
  {
  }

  /** The import finds every column it needs in the exported header, at
      the positions the export writes them. */
  lemma HeaderImports()
    ensures CsvImport.FindColumns(Split(HeaderLine(), ',')) == Some(CsvImport.Columns(0, 1, 2, 3, 4, 5))
  {
    HeaderColumns();
    HeaderCellsColumns();
  }

  lemma HeaderCellsColumns()
    ensures CsvImport.FindColumns(HeaderCells) == Some(CsvImport.Columns(0, 1, 2, 3, 4, 5))
  {
    var h := HeaderCells;
    assert h[0] == "Date" && h[1] == "Type" && h[2] == "Category";
    assert h[3] == "Description" && h[4] == "Amount" && h[5] == "Recurring";
    assert "Type" !in h[..1];
    assert "Category" !in h[..2];
    assert "Description" !in h[..3];
    assert "Amount" !in h[..4];
    assert "Recurring" !in h[..5];
  }
}
