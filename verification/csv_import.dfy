/** The CSV import of the settings page: the header is read for the column
    positions, then every non-blank line becomes one `addTransaction` call,
    in file order, until a line makes the handler throw. Rows already added
    stay added. */
module CsvImport {
  import opened Wrappers
  import opened Seqs
  import opened Strings
  import opened Numbers

  /** The record one row hands to `addTransaction`. A cell read past the end
      of the row is `undefined`, here `None`; an amount `parseFloat` cannot
      read is NaN, here `None`. */
  datatype Row = Row(
    kind: Option<string>,
    amount: Option<real>,
    category: string,
    description: Option<string>,
    date: string,
    isRecurring: bool)

  /** What an import did: the rows added, in order, and whether it ended
      without an error. */
  datatype Outcome = Outcome(added: seq<Row>, ok: bool)

  /** The positions of the columns; `recurring` is -1 when there is no such
      column. */
  datatype Columns = Columns(date: nat, kind: nat, category: nat, description: nat, amount: nat, recurring: int)

  /** The header check: every required column must be present; `Recurring`
      may be missing. */
  function FindColumns(headers: seq<string>): (r: Option<Columns>)
    ensures r.None? <==> ("Date" !in headers || "Type" !in headers || "Category" !in headers
                          || "Description" !in headers || "Amount" !in headers)
    ensures r.Some? ==> (&& r.value.date < |headers| && r.value.kind < |headers| && r.value.category < |headers|
                         && r.value.description < |headers| && r.value.amount < |headers|)
    ensures r.Some? ==> (&& headers[r.value.date] == "Date" && headers[r.value.kind] == "Type"
                         && headers[r.value.category] == "Category"
                         && headers[r.value.description] == "Description"
                         && headers[r.value.amount] == "Amount")
    ensures r.Some? ==> r.value.recurring == IndexOf(headers, "Recurring")
  {
    var date := IndexOf(headers, "Date");
    var kind := IndexOf(headers, "Type");
    var category := IndexOf(headers, "Category");
    var description := IndexOf(headers, "Description");
    var amount := IndexOf(headers, "Amount");
    if date < 0 || kind < 0 || category < 0 || description < 0 || amount < 0 then None
    else Some(Columns(date, kind, category, description, amount, IndexOf(headers, "Recurring")))
  }

  /** `values[i]`, `undefined` past the end. */
  function Cell(values: seq<string>, i: nat): (r: Option<string>)
    ensures r.Some? <==> i < |values|
    ensures r.Some? ==> r.value == values[i]
  {
    if i < |values| then Some(values[i]) else None
  }

  /** `s.padStart(2, '0')`. */
  function Pad2(s: string): string {
    PadStart(s, 2, '0')
  }

  /** The date rewrite `${p[2]}-${p[0].padStart(2,'0')}-${p[1].padStart(2,'0')}`
      on the cell split at `/`. With no `/` in the cell `p[1]` is undefined
      and `padStart` throws (`None`); with one `/` the year is printed as
      `undefined`. */
  function ConvertDate(cell: string): (r: Option<string>)
    ensures r.None? <==> |Split(cell, '/')| < 2
  {
    var parts := Split(cell, '/');
    if |parts| < 2 then None
    else Some((if |parts| > 2 then parts[2] else "undefined") + "-" + Pad2(parts[0]) + "-" + Pad2(parts[1]))
  }

  /** A date written month/day/year is rewritten year-month-day, month and
      day padded with zeros to two characters. */
  lemma ConvertDateOf(m: string, d: string, y: string)
    requires '/' !in m && '/' !in d && '/' !in y
    ensures ConvertDate(m + "/" + d + "/" + y) == Some(y + "-" + Pad2(m) + "-" + Pad2(d))
  {
    SplitWithout(y, '/');
    SplitAfterPiece(d, '/', y);
    assert m + "/" + d + "/" + y == m + ['/'] + (d + ['/'] + y);
    SplitAfterPiece(m, '/', d + ['/'] + y);
  }

  /** Month and day of one or two characters and a four-character year make
      a ten-character `YYYY-MM-DD` text: the year, a dash, the padded month,
      a dash, the padded day. */
  lemma ConvertDateShape(m: string, d: string, y: string)
    requires '/' !in m && '/' !in d && '/' !in y
    requires 1 <= |m| <= 2 && 1 <= |d| <= 2 && |y| == 4
    ensures ConvertDate(m + "/" + d + "/" + y).Some?
    ensures |ConvertDate(m + "/" + d + "/" + y).value| == 10
    ensures ConvertDate(m + "/" + d + "/" + y).value[..4] == y
    ensures ConvertDate(m + "/" + d + "/" + y).value[4] == '-' && ConvertDate(m + "/" + d + "/" + y).value[7] == '-'
    ensures ConvertDate(m + "/" + d + "/" + y).value[5..7] == Pad2(m)
    ensures ConvertDate(m + "/" + d + "/" + y).value[8..] == Pad2(d)
  {
    ConvertDateOf(m, d, y);
    Pad2Meaning(m);
    Pad2Meaning(d);
  }

  /** Padding a text of at most two characters gives exactly two: zeros in
      front of the text itself. */
  lemma Pad2Meaning(s: string)
    requires |s| <= 2
    ensures |Pad2(s)| == 2
    ensures Pad2(s)[2 - |s|..] == s
    ensures forall i :: 0 <= i < 2 - |s| ==> Pad2(s)[i] == '0'
  {
  }

  /** `cell.toLowerCase().replace(' ', '_')`. */
  function NormalizeCategory(cell: string): string {
    ReplaceFirst(ToLower(cell), ' ', "_")
  }

  /** `replace` with a character that does not occur changes nothing. */
  lemma {:induction false} ReplaceFirstAbsent(s: string, c: char, repl: string)
    requires c !in s
    ensures ReplaceFirst(s, c, repl) == s
    decreases |s|
  {
    if |s| > 0 {
      ReplaceFirstAbsent(s[1..], c, repl);
      assert [s[0]] + s[1..] == s;
    }
  }

  /** `replace` with a character replaces its first occurrence only. */
  lemma {:induction false} ReplaceFirstAt(a: string, c: char, b: string, repl: string)
    requires c !in a
    ensures ReplaceFirst(a + [c] + b, c, repl) == a + repl + b
    decreases |a|
  {
    if |a| == 0 {
      assert a + [c] + b == [c] + b;
      assert ([c] + b)[1..] == b;
    } else {
      assert (a + [c] + b)[1..] == a[1..] + [c] + b;
      ReplaceFirstAt(a[1..], c, b, repl);
      assert [a[0]] + a[1..] == a;
    }
  }

  /** A category cell is lower-cased and its first space, and only that
      one, becomes an underscore; a cell without spaces is only
      lower-cased. */
  lemma NormalizeCategoryMeaning(a: string, b: string)
    requires ' ' !in a
    ensures NormalizeCategory(a) == ToLower(a)
    ensures NormalizeCategory(a + " " + b) == ToLower(a) + "_" + ToLower(b)
  {
    LowerKeepsAbsent(a, ' ');
    ReplaceFirstAbsent(ToLower(a), ' ', "_");
    assert ToLower(a + " " + b) == ToLower(a) + [' '] + ToLower(b);
    ReplaceFirstAt(ToLower(a), ' ', ToLower(b), "_");
  }

  /** Lower-casing adds no character that is not a capital letter. */
  lemma LowerKeepsAbsent(s: string, c: char)
    requires c !in s && !IsUpper(c) && !IsLower(c)
    ensures c !in ToLower(s)
  {
  }

  /** One line of the file, already split at commas. The date is read
      first and the category second; either one missing, or a date without
      `/`, makes the handler throw. The other missing cells are `undefined`
      (or NaN for the amount). */
  function ParseRow(values: seq<string>, cols: Columns): (r: Option<Row>)
    ensures r.None? <==> (cols.date >= |values| || |Split(values[cols.date], '/')| < 2 || cols.category >= |values|)
    ensures r.Some? ==> (r.value.isRecurring <==>
      (0 <= cols.recurring < |values| && values[cols.recurring] == "Yes"))
    ensures r.Some? ==> Some(r.value.date) == ConvertDate(values[cols.date])
    ensures r.Some? ==> r.value.category == NormalizeCategory(values[cols.category])
  {
    if cols.date >= |values| then None
    else match ConvertDate(values[cols.date])
      case None => None
      case Some(date) =>
        if cols.category >= |values| then None
        else Some(Row(
          Cell(values, cols.kind),
          if cols.amount < |values| then ParseFloat(values[cols.amount]) else None,
          NormalizeCategory(values[cols.category]),
          Cell(values, cols.description),
          date,
          if cols.recurring >= 0 then (cols.recurring < |values| && values[cols.recurring] == "Yes") else false))
  }

  /** `!line.trim()` is false: the line is read. */
  predicate NotBlank(line: string) {
    Trim(line) != ""
  }

  function IsNotBlank(): string -> bool {
    (line: string) => NotBlank(line)
  }

  function ParseLine(line: string, cols: Columns): Option<Row> {
    ParseRow(Split(line, ','), cols)
  }

  function Parser(cols: Columns): string -> Option<Row> {
    (line: string) => ParseLine(line, cols)
  }

  /** The data-row loop: lines failing `keep` are skipped, every other line
      is added in turn, and the first line `parse` rejects ends the run. */
  function RunRows(lines: seq<string>, keep: string -> bool, parse: string -> Option<Row>): (r: Outcome)
    ensures |r.added| <= |lines|
    decreases |lines|
  {
    if |lines| == 0 then Outcome([], true)
    else if !keep(lines[0]) then RunRows(lines[1..], keep, parse)
    else match parse(lines[0])
      case None => Outcome([], false)
      case Some(row) =>
        var rest := RunRows(lines[1..], keep, parse);
        Outcome([row] + rest.added, rest.ok)
  }

  /** Against the kept lines, in order: the rows added are the parses of a
      prefix of them; the run succeeds exactly when that prefix is all of
      them; and a failed run stopped at the first line that was rejected,
      keeping what it had added. */
  lemma {:induction false} RunRowsMeaning(lines: seq<string>, keep: string -> bool, parse: string -> Option<Row>)
    ensures |RunRows(lines, keep, parse).added| <= |Filter(lines, keep)|
    ensures forall i :: 0 <= i < |RunRows(lines, keep, parse).added| ==>
      parse(Filter(lines, keep)[i]) == Some(RunRows(lines, keep, parse).added[i])
    ensures RunRows(lines, keep, parse).ok <==> |RunRows(lines, keep, parse).added| == |Filter(lines, keep)|
    ensures !RunRows(lines, keep, parse).ok ==>
      parse(Filter(lines, keep)[|RunRows(lines, keep, parse).added|]).None?
    decreases |lines|
  {
    if |lines| > 0 {
      RunRowsMeaning(lines[1..], keep, parse);
      var rows := Filter(lines, keep);
      var rest := Filter(lines[1..], keep);
      var r := RunRows(lines, keep, parse);
      var tail := RunRows(lines[1..], keep, parse);
      if keep(lines[0]) {
        assert rows == [lines[0]] + rest;
        if parse(lines[0]).Some? {
          assert r.added == [parse(lines[0]).value] + tail.added;
          forall i | 0 <= i < |r.added|
            ensures parse(rows[i]) == Some(r.added[i])
          {
            if i > 0 {
              assert rows[i] == rest[i - 1] && r.added[i] == tail.added[i - 1];
            }
          }
        }
      } else {
        assert rows == rest && r == tail;
      }
    }
  }

  /** The import's loop: blank lines are skipped and every other line is
      parsed and added, until one throws. */
  function ImportRows(lines: seq<string>, cols: Columns): Outcome {
    RunRows(lines, IsNotBlank(), Parser(cols))
  }

  /** The import adds the parses of a prefix of the non-blank lines, all of
      them exactly when it succeeds, and stops at the first line that
      throws. */
  lemma ImportRowsMeaning(lines: seq<string>, cols: Columns)
    ensures |ImportRows(lines, cols).added| <= |Filter(lines, IsNotBlank())|
    ensures forall i :: 0 <= i < |ImportRows(lines, cols).added| ==>
      ParseLine(Filter(lines, IsNotBlank())[i], cols) == Some(ImportRows(lines, cols).added[i])
    ensures ImportRows(lines, cols).ok <==> |ImportRows(lines, cols).added| == |Filter(lines, IsNotBlank())|
    ensures !ImportRows(lines, cols).ok ==>
      ParseLine(Filter(lines, IsNotBlank())[|ImportRows(lines, cols).added|], cols).None?
  {
    RunRowsMeaning(lines, IsNotBlank(), Parser(cols));
  }

  /** `handleImportData` on the text of the file. */
  function Import(content: string): (r: Outcome)
    ensures |Split(content, '\n')| < 2 ==> r == Outcome([], false)
    ensures FindColumns(Split(Split(content, '\n')[0], ',')).None? ==> r == Outcome([], false)
  {
    var lines := Split(content, '\n');
    if |lines| < 2 then Outcome([], false)
    else match FindColumns(Split(lines[0], ','))
      case None => Outcome([], false)
      case Some(cols) => ImportRows(lines[1..], cols)
  }

  /** A file with no line break is rejected before anything is added. */
  lemma SingleLineRejected(content: string)
    requires '\n' !in content
    ensures Import(content) == Outcome([], false)
  {
    SplitWithout(content, '\n');
  }

  /** Once the header has been read, the import is the row loop over the
      lines after it. */
  lemma ImportAfterHeader(header: string, body: string)
    requires '\n' !in header
    requires FindColumns(Split(header, ',')).Some?
    ensures Import(header + "\n" + body) == ImportRows(Split(body, '\n'), FindColumns(Split(header, ',')).value)
  {
    SplitAfterPiece(header, '\n', body);
    assert header + "\n" + body == header + ['\n'] + body;
  }

  /** Under a header naming the six columns in order, one line
      `M/D/YYYY,type,category,description,amount,recurring` of comma-free
      cells is added as the record with the date rewritten, the type, the
      normalised category, the description, the parsed amount, and
      `isRecurring` set exactly for `Yes`. */
  lemma ImportOneLine(header: string, m: string, d: string, y: string, kind: string, category: string,
                      description: string, amount: string, recurring: string)
    requires '\n' !in header && FindColumns(Split(header, ',')) == Some(Columns(0, 1, 2, 3, 4, 5))
    requires '/' !in m && '/' !in d && '/' !in y
    requires ',' !in m && ',' !in d && ',' !in y && ',' !in kind && ',' !in category
    requires ',' !in description && ',' !in amount && ',' !in recurring
    requires '\n' !in m && '\n' !in d && '\n' !in y && '\n' !in kind && '\n' !in category
    requires '\n' !in description && '\n' !in amount && '\n' !in recurring
    ensures Import(header + "\n" + Join([m + "/" + d + "/" + y, kind, category, description, amount, recurring], ","))
         == Outcome([Row(Some(kind), ParseFloat(amount), NormalizeCategory(category), Some(description),
                         y + "-" + Pad2(m) + "-" + Pad2(d), recurring == "Yes")], true)
  {
    LinePrepared(m, d, y, kind, category, description, amount, recurring);
    ImportSingleRow(header, Join([m + "/" + d + "/" + y, kind, category, description, amount, recurring], ","),
                    Columns(0, 1, 2, 3, 4, 5),
                    Row(Some(kind), ParseFloat(amount), NormalizeCategory(category), Some(description),
                        y + "-" + Pad2(m) + "-" + Pad2(d), recurring == "Yes"));
  }

  /** The line of such cells has no line break, is not blank, and parses. */
  lemma LinePrepared(m: string, d: string, y: string, kind: string, category: string,
                     description: string, amount: string, recurring: string)
    requires '/' !in m && '/' !in d && '/' !in y
    requires ',' !in m && ',' !in d && ',' !in y && ',' !in kind && ',' !in category
    requires ',' !in description && ',' !in amount && ',' !in recurring
    requires '\n' !in m && '\n' !in d && '\n' !in y && '\n' !in kind && '\n' !in category
    requires '\n' !in description && '\n' !in amount && '\n' !in recurring
    ensures '\n' !in Join([m + "/" + d + "/" + y, kind, category, description, amount, recurring], ",")
    ensures NotBlank(Join([m + "/" + d + "/" + y, kind, category, description, amount, recurring], ","))
    ensures ParseLine(Join([m + "/" + d + "/" + y, kind, category, description, amount, recurring], ","), Columns(0, 1, 2, 3, 4, 5))
         == Some(Row(Some(kind), ParseFloat(amount), NormalizeCategory(category), Some(description),
                     y + "-" + Pad2(m) + "-" + Pad2(d), recurring == "Yes"))
  {
    var cells := [m + "/" + d + "/" + y, kind, category, description, amount, recurring];
    DateCellWithout(m, d, y, '\n');
    SixWithout(cells, '\n');
    JoinWithout(cells, ',', '\n');
    ParseCells(m, d, y, kind, category, description, amount, recurring);
    LineNotBlank(cells);
  }

  /** A header and one non-blank line that parses import that line's row. */
  lemma ImportSingleRow(header: string, line: string, cols: Columns, row: Row)
    requires '\n' !in header && '\n' !in line
    requires FindColumns(Split(header, ',')) == Some(cols)
    requires NotBlank(line) && ParseLine(line, cols) == Some(row)
    ensures Import(header + "\n" + line) == Outcome([row], true)
  {
    ImportAfterHeader(header, line);
    SplitWithout(line, '\n');
    RunOneRow(line, IsNotBlank(), Parser(cols), row);
  }

  /** The cells of one comma-free line under the standard header. */
  lemma ParseCells(m: string, d: string, y: string, kind: string, category: string,
                   description: string, amount: string, recurring: string)
    requires '/' !in m && '/' !in d && '/' !in y
    requires ',' !in m && ',' !in d && ',' !in y && ',' !in kind && ',' !in category
    requires ',' !in description && ',' !in amount && ',' !in recurring
    ensures ParseLine(Join([m + "/" + d + "/" + y, kind, category, description, amount, recurring], ","), Columns(0, 1, 2, 3, 4, 5))
         == Some(Row(Some(kind), ParseFloat(amount), NormalizeCategory(category), Some(description),
                     y + "-" + Pad2(m) + "-" + Pad2(d), recurring == "Yes"))
  {
    var cells := [m + "/" + d + "/" + y, kind, category, description, amount, recurring];
    DateCellWithout(m, d, y, ',');
    SplitJoin(cells, ',');
    ConvertDateOf(m, d, y);
  }

  /** A run over one kept line that parses adds that line's row. */
  lemma RunOneRow(line: string, keep: string -> bool, parse: string -> Option<Row>, row: Row)
    requires keep(line) && parse(line) == Some(row)
    ensures RunRows([line], keep, parse) == Outcome([row], true)
  {
    assert [line][1..] == [];
  }

  lemma SixWithout(cells: seq<string>, c: char)
    requires |cells| == 6
    requires c !in cells[0] && c !in cells[1] && c !in cells[2]
    requires c !in cells[3] && c !in cells[4] && c !in cells[5]
    ensures forall i :: 0 <= i < |cells| ==> c !in cells[i]
  {
  }

  lemma DateCellWithout(m: string, d: string, y: string, c: char)
    requires c != '/' && c !in m && c !in d && c !in y
    ensures c !in m + "/" + d + "/" + y
  {
  }

  /** A line holding a separator is not blank. */
  lemma LineNotBlank(cells: seq<string>)
    requires |cells| >= 2
    ensures NotBlank(Join(cells, ","))
  {
    var line := Join(cells, ",");
    assert line == cells[0] + "," + Join(cells[1..], ",");
    assert line[|cells[0]|] == ',';
    TrimEmpty(line);
  }
}
