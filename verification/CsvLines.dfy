/** The CSV cells of a batch export, and the line parser that reads them back. */
module CsvLines {
  import opened Sequences
  import opened Strings

  function DoubleQuotes(v: string): string {
    if v == "" then "" else (if v[0] == '"' then "\"\"" else [v[0]]) + DoubleQuotes(v[1..])
  }

  function Escape(v: string): string {
    if ',' in v || '"' in v then "\"" + DoubleQuotes(v) + "\"" else v
  }

  /** A cell of an exported row: free text is escaped, ids and numbers are not. */
  datatype Cell = Text(value: string) | Raw(value: string)

  function PrintCell(cell: Cell): string {
    if cell.Text? then Escape(cell.value) else cell.value
  }

  function PrintRow(cells: seq<Cell>): string
    requires cells != []
  {
    if |cells| == 1 then PrintCell(cells[0]) else PrintCell(cells[0]) + "," + PrintRow(cells[1..])
  }

  /** The parser's walk over what is left of the line. */
  function Scan(line: string, current: string, inQuotes: bool, columns: seq<string>): seq<string> {
    if line == "" then columns + [Trim(current)]
    else if line[0] == '"' then
      if inQuotes && |line| > 1 && line[1] == '"' then Scan(line[2..], current + "\"", true, columns)
      else Scan(line[1..], current, !inQuotes, columns)
    else if line[0] == ',' && !inQuotes then Scan(line[1..], "", false, columns + [Trim(current)])
    else Scan(line[1..], current + [line[0]], inQuotes, columns)
  }

  method ParseCsvLine(line: string) returns (result: seq<string>)
    ensures result == Scan(line, "", false, [])
  {
    result := [];
    var current, inQuotes := "", false;
    var i := 0;
    while i < |line|
      invariant 0 <= i <= |line|
      invariant Scan(line[i..], current, inQuotes, result) == Scan(line, "", false, [])
    {
      var c := line[i];
      if c == '"' {
        if inQuotes && i + 1 < |line| && line[i + 1] == '"' {
          current := current + "\"";
          assert line[i..][2..] == line[i + 2..];
          i := i + 1;
        } else {
          inQuotes := !inQuotes;
        }
      } else if c == ',' && !inQuotes {
        result := result + [Trim(current)];
        current := "";
      } else {
        current := current + [c];
      }
      i := i + 1;
    }
    result := result + [Trim(current)];
  }

  /** A cell may be followed by the next one or by the end of the line. */
  predicate CellEnd(rest: string) {
    rest == "" || rest[0] == ','
  }

  lemma {:induction false} ScanPlain(v: string, rest: string, current: string, columns: seq<string>)
    requires ',' !in v && '"' !in v
    ensures Scan(v + rest, current, false, columns) == Scan(rest, current + v, false, columns)
  {
    if v == "" {
      assert v + rest == rest && current + v == current;
    } else {
      assert (v + rest)[1..] == v[1..] + rest;
      ScanPlain(v[1..], rest, current + [v[0]], columns);
      assert current + [v[0]] + v[1..] == current + v;
    }
  }

  lemma {:induction false} ScanQuoted(v: string, rest: string, current: string, columns: seq<string>)
    requires CellEnd(rest)
    ensures Scan(DoubleQuotes(v) + "\"" + rest, current, true, columns) == Scan(rest, current + v, false, columns)
  {
    var line := DoubleQuotes(v) + "\"" + rest;
    if v == "" {
      assert line == ['"'] + rest && current + v == current;
    } else {
      var tail := DoubleQuotes(v[1..]) + "\"" + rest;
      if v[0] == '"' {
        assert line == ['"', '"'] + tail;
      } else {
        assert line == [v[0]] + tail;
      }
      ScanQuoted(v[1..], rest, current + [v[0]], columns);
      assert current + [v[0]] + v[1..] == current + v;
    }
  }

  lemma {:induction false} ScanEscaped(v: string, rest: string, columns: seq<string>)
    requires CellEnd(rest)
    ensures Scan(Escape(v) + rest, "", false, columns) == Scan(rest, v, false, columns)
  {
    if ',' in v || '"' in v {
      assert Escape(v) + rest == ['"'] + (DoubleQuotes(v) + "\"" + rest);
      ScanQuoted(v, rest, "", columns);
      assert "" + v == v;
    } else {
      ScanPlain(v, rest, "", columns);
      assert "" + v == v;
    }
  }

  function CellValue(cell: Cell): string { Trim(cell.value) }

  /** A raw cell is safe when it holds no delimiter. */
  predicate Safe(cell: Cell) {
    cell.Raw? ==> ',' !in cell.value && '"' !in cell.value
  }

  lemma {:induction false} ScanCell(cell: Cell, rest: string, columns: seq<string>)
    requires Safe(cell) && CellEnd(rest)
    ensures Scan(PrintCell(cell) + rest, "", false, columns) == Scan(rest, cell.value, false, columns)
  {
    if cell.Text? {
      ScanEscaped(cell.value, rest, columns);
    } else {
      ScanPlain(cell.value, rest, "", columns);
      assert "" + cell.value == cell.value;
    }
  }

  lemma MapCons<T, U>(s: seq<T>, f: T -> U)
    requires s != []
    ensures Map(s, f) == [f(s[0])] + Map(s[1..], f)
  {
  }

  lemma {:induction false} ScanRow(cells: seq<Cell>, columns: seq<string>)
    requires cells != [] && forall i :: 0 <= i < |cells| ==> Safe(cells[i])
    ensures Scan(PrintRow(cells), "", false, columns) == columns + Map(cells, CellValue)
  {
    hide Safe, PrintCell, Trim, Map;
    MapCons(cells, CellValue);
    if |cells| == 1 {
      assert PrintRow(cells) == PrintCell(cells[0]) + "";
      ScanCell(cells[0], "", columns);
      assert Map(cells[1..], CellValue) == [];
    } else {
      var rest := "," + PrintRow(cells[1..]);
      assert PrintRow(cells) == PrintCell(cells[0]) + rest;
      ScanCell(cells[0], rest, columns);
      assert rest[1..] == PrintRow(cells[1..]);
      ScanRow(cells[1..], columns + [CellValue(cells[0])]);
    }
  }

  /** Reading a printed row back gives its trimmed values, so it gives the values
      themselves exactly when none has white space around it. */
  lemma {:induction false} ParseUndoesPrint(cells: seq<Cell>)
    requires cells != [] && forall i :: 0 <= i < |cells| ==> Safe(cells[i])
    ensures Scan(PrintRow(cells), "", false, []) == Map(cells, CellValue)
    ensures Scan(PrintRow(cells), "", false, []) == Map(cells, (cell: Cell) => cell.value)
            <==> forall i :: 0 <= i < |cells| ==> Trim(cells[i].value) == cells[i].value
  {
    ScanRow(cells, []);
    var values := Map(cells, (cell: Cell) => cell.value);
    assert Map(cells, CellValue) == values
           <==> forall i :: 0 <= i < |cells| ==> Map(cells, CellValue)[i] == values[i];
  }

  /** The commas that stand outside quotes, a quote at a time: whether quotes are open
      is told by how many there were. */
  function FreeCommas(v: string, open: bool): nat {
    if v == "" then 0
    else if v[0] == '"' then FreeCommas(v[1..], !open)
    else (if v[0] == ',' && !open then 1 else 0) + FreeCommas(v[1..], open)
  }

  function Open(v: string, open: bool): bool {
    if v == "" then open else Open(v[1..], if v[0] == '"' then !open else open)
  }

  /** The parser makes a column for each of them and one more; reading a doubled quote
      as one character makes no difference to that. */
  lemma {:induction false} ColumnsCounted(line: string, current: string, inQuotes: bool, columns: seq<string>)
    ensures |Scan(line, current, inQuotes, columns)| == |columns| + 1 + FreeCommas(line, inQuotes)
    decreases |line|
  {
    hide Trim;
    if line == "" {
    } else if line[0] == '"' {
      if inQuotes && |line| > 1 && line[1] == '"' {
        assert line[1..][1..] == line[2..];
        ColumnsCounted(line[2..], current + "\"", true, columns);
      } else {
        ColumnsCounted(line[1..], current, !inQuotes, columns);
      }
    } else if line[0] == ',' && !inQuotes {
      ColumnsCounted(line[1..], "", false, columns + [Trim(current)]);
    } else {
      ColumnsCounted(line[1..], current + [line[0]], inQuotes, columns);
    }
  }

  lemma {:induction false} FreeAppend(a: string, b: string, open: bool)
    ensures FreeCommas(a + b, open) == FreeCommas(a, open) + FreeCommas(b, Open(a, open))
    ensures Open(a + b, open) == Open(b, Open(a, open))
  {
    if a == "" {
      assert a + b == b;
    } else {
      assert (a + b)[1..] == a[1..] + b;
      FreeAppend(a[1..], b, if a[0] == '"' then !open else open);
    }
  }

  lemma {:induction false} DoubledStaysOpen(v: string)
    ensures Open(DoubleQuotes(v), true) && FreeCommas(DoubleQuotes(v), true) == 0
  {
    if v != "" {
      var rest := DoubleQuotes(v[1..]);
      assert v[0] == '"' ==> DoubleQuotes(v)[1..][1..] == rest;
      assert v[0] != '"' ==> DoubleQuotes(v)[1..] == rest;
      DoubledStaysOpen(v[1..]);
    }
  }

  lemma {:induction false} PlainIsClosed(v: string)
    requires ',' !in v && '"' !in v
    ensures !Open(v, false) && FreeCommas(v, false) == 0
  {
    if v != "" { PlainIsClosed(v[1..]); }
  }

  lemma EscapedIsClosed(v: string)
    ensures !Open(Escape(v), false) && FreeCommas(Escape(v), false) == 0
  {
    if ',' in v || '"' in v {
      DoubledStaysOpen(v);
      FreeAppend(DoubleQuotes(v), "\"", true);
      assert Escape(v)[1..] == DoubleQuotes(v) + "\"";
    } else {
      PlainIsClosed(v);
    }
  }

  /** The commas outside quotes in unescaped cells. */
  function RawCommas(cells: seq<Cell>): nat {
    if cells == [] then 0 else (if cells[0].Raw? then FreeCommas(cells[0].value, false) else 0) + RawCommas(cells[1..])
  }

  predicate Closed(cell: Cell) {
    cell.Raw? ==> !Open(cell.value, false)
  }

  lemma {:induction false} RowCommas(cells: seq<Cell>)
    requires cells != [] && forall i :: 0 <= i < |cells| ==> Closed(cells[i])
    ensures FreeCommas(PrintRow(cells), false) == |cells| - 1 + RawCommas(cells)
  {
    hide Escape;
    if cells[0].Text? { EscapedIsClosed(cells[0].value); }
    assert Closed(cells[0]);
    if |cells| > 1 {
      var rest := "," + PrintRow(cells[1..]);
      assert PrintRow(cells) == PrintCell(cells[0]) + rest && rest[1..] == PrintRow(cells[1..]);
      FreeAppend(PrintCell(cells[0]), rest, false);
      RowCommas(cells[1..]);
    }
  }

  lemma {:induction false} NoRawCommas(cells: seq<Cell>)
    ensures RawCommas(cells) == 0 <==> forall cell :: cell in cells && cell.Raw? ==> FreeCommas(cell.value, false) == 0
  {
    if cells != [] {
      NoRawCommas(cells[1..]);
      assert forall cell :: cell in cells <==> cell == cells[0] || cell in cells[1..];
    }
  }

  /** Ids are printed as they are. A row reads back with the right number of columns
      exactly when as many commas are outside quotes as separate its cells; where each
      unescaped cell closes the quotes it opens, exactly when none of these has a comma
      outside them. */
  lemma {:induction false} ColumnsSurviveExactly(cells: seq<Cell>)
    requires cells != []
    ensures |Scan(PrintRow(cells), "", false, [])| == |cells| <==> FreeCommas(PrintRow(cells), false) == |cells| - 1
    ensures (forall i :: 0 <= i < |cells| ==> Closed(cells[i])) ==>
              (|Scan(PrintRow(cells), "", false, [])| == |cells|
               <==> forall cell :: cell in cells && cell.Raw? ==> FreeCommas(cell.value, false) == 0)
  {
    hide Scan, FreeCommas, PrintRow, Closed;
    ColumnsCounted(PrintRow(cells), "", false, []);
    if forall i :: 0 <= i < |cells| ==> Closed(cells[i]) { RowCommas(cells); }
    NoRawCommas(cells);
  }

  // ------------------------------------------------------------- whole exports

  /** The header and the results, a line each. */
  function Export(rows: seq<seq<Cell>>): string
    requires rows != [] && forall i :: 0 <= i < |rows| ==> rows[i] != []
  {
    if |rows| == 1 then PrintRow(rows[0]) else PrintRow(rows[0]) + "\n" + Export(rows[1..])
  }

  function DropReturn(line: string): string {
    if line != "" && line[|line| - 1] == '\r' then line[..|line| - 1] else line
  }

  /** Splits where a line feed, or a carriage return and a line feed, stand. */
  function SplitLines(text: string): seq<string>
    decreases |text|
  {
    var at := IndexOf(text, "\n");
    if at < 0 then [text] else [DropReturn(text[..at])] + SplitLines(text[at + 1..])
  }

  function NotBlank(line: string): bool { Trim(line) != "" }

  function Columns(line: string): seq<string> { Scan(line, "", false, []) }

  function ReadRows(text: string): seq<seq<string>> {
    Map(Filter(SplitLines(text), NotBlank), Columns)
  }

  function ReadLine(line: string): seq<seq<string>> {
    if NotBlank(line) then [Columns(line)] else []
  }

  lemma {:induction false} PadScan(space: string, line: string, current: string, inQuotes: bool, columns: seq<string>)
    requires AllSpace(space)
    ensures Scan(line, space + current, inQuotes, columns) == Scan(line, current, inQuotes, columns)
    decreases |line|
  {
    hide Trim, AllSpace;
    TrimDrops(space, current);
    if line == "" {
    } else if line[0] == '"' {
      if inQuotes && |line| > 1 && line[1] == '"' {
        assert space + current + "\"" == space + (current + "\"");
        PadScan(space, line[2..], current + "\"", true, columns);
      } else {
        PadScan(space, line[1..], current, !inQuotes, columns);
      }
    } else if line[0] == ',' && !inQuotes {
    } else {
      assert space + current + [line[0]] == space + (current + [line[0]]);
      PadScan(space, line[1..], current + [line[0]], inQuotes, columns);
    }
  }

  lemma {:induction false} ScanSpace(space: string, current: string, inQuotes: bool, columns: seq<string>)
    requires AllSpace(space)
    ensures Scan(space, current, inQuotes, columns) == columns + [Trim(current)]
  {
    hide Trim;
    if space != "" {
      assert IsSpace(space[0]) && AllSpace(space[1..]);
      ScanSpace(space[1..], current + [space[0]], inQuotes, columns);
      assert AllSpace([space[0]]);
      DropTrailing(current, [space[0]]);
    }
  }

  lemma DropTrailing(current: string, space: string)
    requires AllSpace(space)
    ensures Trim(current + space) == Trim(current)
  {
    hide Trim;
    TrimDrops(current, space);
    if AllSpace(current) {
      BlankExactly(space);
      BlankExactly(current);
    }
  }

  lemma {:induction false} ScanTrailing(line: string, space: string, current: string, inQuotes: bool,
                                        columns: seq<string>)
    requires AllSpace(space)
    ensures Scan(line + space, current, inQuotes, columns) == Scan(line, current, inQuotes, columns)
    decreases |line|
  {
    hide Trim, AllSpace;
    var whole := line + space;
    if line == "" {
      assert whole == space;
      ScanSpace(space, current, inQuotes, columns);
    } else if line[0] == '"' {
      QuoteIsNoSpace(line, space);
      assert whole[1..] == line[1..] + space;
      if inQuotes && |line| > 1 && line[1] == '"' {
        assert whole[2..] == line[2..] + space;
        ScanTrailing(line[2..], space, current + "\"", true, columns);
      } else {
        ScanTrailing(line[1..], space, current, !inQuotes, columns);
      }
    } else {
      assert whole[1..] == line[1..] + space;
      if line[0] == ',' && !inQuotes {
        ScanTrailing(line[1..], space, "", false, columns + [Trim(current)]);
      } else {
        ScanTrailing(line[1..], space, current + [line[0]], inQuotes, columns);
      }
    }
  }

  lemma QuoteIsNoSpace(line: string, space: string)
    requires AllSpace(space) && line != ""
    ensures |line + space| > 1 && (line + space)[1] == '"' <==> |line| > 1 && line[1] == '"'
  {
    assert |line| == 1 && space != "" ==> (line + space)[1] == space[0];
  }

  /** White space before or after a line makes no difference to its columns. */
  lemma ColumnsPadded(a: string, b: string)
    requires AllSpace(a) || AllSpace(b)
    ensures Columns(a + b) == if AllSpace(a) then Columns(b) else Columns(a)
  {
    if AllSpace(a) {
      ScanPrefix(a, b, "");
      PadScan(a, b, "", false, []);
      assert "" + a == a && a + "" == a;
    } else {
      ScanTrailing(a, b, "", false, []);
    }
  }

  lemma {:induction false} ScanPrefix(space: string, line: string, current: string)
    requires AllSpace(space)
    ensures Scan(space + line, current, false, []) == Scan(line, current + space, false, [])
  {
    if space == "" {
      assert space + line == line && current + space == current;
    } else {
      assert IsSpace(space[0]) && (space + line)[1..] == space[1..] + line;
      ScanPrefix(space[1..], line, current + [space[0]]);
      assert current + [space[0]] + space[1..] == current + space;
    }
  }

  lemma ReturnMakesNoDifference(line: string)
    ensures ReadLine(DropReturn(line)) == ReadLine(line)
  {
    hide Trim, Columns;
    var short := DropReturn(line);
    if short != line {
      assert line == short + "\r" && AllSpace("\r");
      DropTrailing(short, "\r");
      ColumnsPadded(short, "\r");
      BlankExactly(short);
    }
  }

  lemma ReadFirst(line: string, rest: string)
    requires '\n' !in line
    ensures ReadRows(line + "\n" + rest) == ReadLine(line) + ReadRows(rest)
  {
    hide Trim, Columns, IndexOf, Filter, Map, NotBlank;
    var text, kept := line + "\n" + rest, Filter(SplitLines(rest), NotBlank);
    FirstSeparator(line, rest, '\n');
    assert SplitLines(text) == [DropReturn(line)] + SplitLines(rest);
    FilterCons(DropReturn(line), SplitLines(rest), NotBlank);
    ReturnMakesNoDifference(line);
    if NotBlank(DropReturn(line)) {
      MapCons([DropReturn(line)] + kept, Columns);
      assert ([DropReturn(line)] + kept)[1..] == kept;
    } else {
      assert [] + kept == kept;
    }
  }

  lemma ReadOnly(line: string)
    requires '\n' !in line
    ensures ReadRows(line) == ReadLine(line)
  {
    hide Trim, Columns, NotBlank;
    assert forall k: nat :: OccursAt(line, "\n", k) ==> line[k] == '\n';
    assert SplitLines(line) == [line];
    FilterSnoc([], line, NotBlank);
    assert [] + [line] == [line] && Filter<string>([], NotBlank) == [];
  }

  /** A text after a line break is read by itself. */
  lemma {:induction false} ReadAppend(text: string, rest: string)
    ensures ReadRows(text + "\n" + rest) == ReadRows(text) + ReadRows(rest)
    decreases |text|
  {
    hide ReadRows, ReadLine;
    if '\n' in text {
      var line, tail := FirstLine(text);
      assert text + "\n" + rest == line + "\n" + (tail + "\n" + rest);
      ReadFirst(line, tail + "\n" + rest);
      ReadAppend(tail, rest);
      ReadFirst(line, tail);
    } else {
      ReadFirst(text, rest);
      ReadOnly(text);
    }
  }

  lemma FirstLine(text: string) returns (line: string, tail: string)
    requires '\n' in text
    ensures text == line + "\n" + tail && '\n' !in line
  {
    var at := IndexOf(text, "\n");
    var k :| 0 <= k < |text| && text[k] == '\n';
    assert OccursAt(text, "\n", k);
    line, tail := text[..at], text[at + 1..];
    forall i | 0 <= i < at ensures line[i] != '\n' {
      assert !OccursAt(text, "\n", i) && text[i..i + 1] == [text[i]];
    }
    assert text == line + text[at..at + 1] + tail;
  }

  lemma {:induction false} BlankReadsNothing(text: string)
    requires AllSpace(text)
    ensures ReadRows(text) == []
    decreases |text|
  {
    hide ReadRows, Trim;
    BlankExactly(text);
    if '\n' in text {
      var line, tail := FirstLine(text);
      assert AllSpace(line) by { assert line == text[..|line|]; }
      assert AllSpace(tail) by { assert tail == text[|line| + 1..]; }
      BlankExactly(line);
      ReadFirst(line, tail);
      BlankReadsNothing(tail);
    } else {
      ReadOnly(text);
    }
  }

  /** A text that is not blank is read as one row exactly when it has no line break
      between its first and its last visible character; then as its own columns. */
  lemma {:induction false} ReadsAsOne(text: string)
    requires !AllSpace(text)
    ensures |ReadRows(text)| >= 1
    ensures |ReadRows(text)| == 1 <==> '\n' !in Trim(text)
    ensures |ReadRows(text)| == 1 ==> ReadRows(text) == [Columns(text)]
    decreases |text|
  {
    hide ReadRows, Trim, AllSpace, Columns, TrimStart, TrimEnd;
    if '\n' in text {
      var line, tail := FirstLine(text);
      ReadFirst(line, tail);
      BlankExactly(line);
      assert AllSpace("\n") by { LineFeedIsSpace(); }
      SpaceOfTwo(line, "\n");
      SpaceOfTwo(line + "\n", tail);
      if AllSpace(line) {
        ReadsAsOne(tail);
        TrimDrops(line + "\n", tail);
        ColumnsPadded(line + "\n", tail);
      } else if AllSpace(tail) {
        SpaceOfTwo("\n", tail);
        BlankReadsNothing(tail);
        assert text == line + ("\n" + tail);
        TrimDrops(line, "\n" + tail);
        ColumnsPadded(line, "\n" + tail);
        TrimAddsNone(line, '\n');
      } else {
        ReadsAsOne(tail);
        BreakInside(line, tail);
      }
    } else {
      ReadOnly(text);
      BlankExactly(text);
      TrimAddsNone(text, '\n');
    }
  }

  lemma LineFeedIsSpace()
    ensures AllSpace("\n")
  {
  }

  lemma SpaceOfTwo(a: string, b: string)
    ensures AllSpace(a + b) <==> AllSpace(a) && AllSpace(b)
  {
    forall i | 0 <= i < |a + b| ensures (a + b)[i] == if i < |a| then a[i] else b[i - |a|] {
    }
    if AllSpace(a + b) {
      assert forall i :: 0 <= i < |a| ==> (a + b)[i] == a[i];
      assert forall i :: 0 <= i < |b| ==> (a + b)[|a| + i] == b[i];
    }
  }

  lemma BreakInside(line: string, tail: string)
    requires !AllSpace(line) && !AllSpace(tail)
    ensures '\n' in Trim(line + "\n" + tail)
  {
    hide Trim, TrimStart, TrimEnd, AllSpace;
    SpaceOfTwo("\n", tail);
    assert line + "\n" + tail == line + ("\n" + tail);
    TrimStops(line, "\n" + tail);
    TrimEndStops("\n", tail);
  }

  function Values(cells: seq<Cell>): seq<string> {
    Map(cells, CellValue)
  }

  function ParsedRow(cells: seq<Cell>): seq<string> {
    if cells == [] then [] else Columns(PrintRow(cells))
  }

  lemma {:induction false} RowIsVisible(cells: seq<Cell>)
    requires |cells| > 1
    ensures !AllSpace(PrintRow(cells))
  {
    assert PrintRow(cells)[|PrintCell(cells[0])|] == ',';
  }

  /** No line break but at the very ends of the printed row. */
  predicate OneLine(cells: seq<Cell>)
    requires cells != []
  {
    '\n' !in Trim(PrintRow(cells))
  }

  ghost predicate OneLineEach(rows: seq<seq<Cell>>)
    requires forall i :: 0 <= i < |rows| ==> rows[i] != []
  {
    forall i :: 0 <= i < |rows| ==> OneLine(rows[i])
  }

  lemma {:induction false} RowReads(cells: seq<Cell>)
    requires |cells| > 1
    ensures |ReadRows(PrintRow(cells))| >= 1
    ensures |ReadRows(PrintRow(cells))| == 1 <==> OneLine(cells)
    ensures OneLine(cells) ==> ReadRows(PrintRow(cells)) == [ParsedRow(cells)]
  {
    hide ReadRows, Trim, AllSpace, PrintRow, Columns;
    RowIsVisible(cells);
    ReadsAsOne(PrintRow(cells));
  }

  lemma {:induction false} ExportReads(rows: seq<seq<Cell>>)
    requires rows != [] && forall i :: 0 <= i < |rows| ==> |rows[i]| > 1
    ensures var read := ReadRows(Export(rows));
            && |read| >= |rows| && (|read| == |rows| <==> OneLineEach(rows))
            && (OneLineEach(rows) ==> read == Map(rows, ParsedRow))
  {
    hide ReadRows, PrintRow, OneLine, ParsedRow;
    RowReads(rows[0]);
    if |rows| == 1 {
      assert rows == [rows[0]];
    } else {
      var rest := rows[1..];
      ReadAppend(PrintRow(rows[0]), Export(rest));
      ExportReads(rest);
      MapCons(rows, ParsedRow);
      assert OneLineEach(rows) <==> OneLine(rows[0]) && OneLineEach(rest) by {
        assert forall i :: 0 <= i < |rest| ==> rest[i] == rows[i + 1];
        assert forall i :: 0 < i < |rows| ==> rows[i] == rest[i - 1];
      }
    }
  }

  /** A whole export reads back row by row exactly when each row does by itself and has no
      line break between its visible characters: free text with one inside splits its row,
      quoted or not. Where unescaped cells hold no delimiter, the line breaks decide. */
  lemma {:induction false} ExportReadsBackExactly(rows: seq<seq<Cell>>)
    requires rows != [] && forall i :: 0 <= i < |rows| ==> |rows[i]| > 1
    ensures ReadRows(Export(rows)) == Map(rows, Values)
            <==> OneLineEach(rows) && forall i :: 0 <= i < |rows| ==> Columns(PrintRow(rows[i])) == Values(rows[i])
    ensures (forall i :: 0 <= i < |rows| ==> forall j :: 0 <= j < |rows[i]| ==> Safe(rows[i][j])) ==>
              (ReadRows(Export(rows)) == Map(rows, Values) <==> OneLineEach(rows))
  {
    hide ReadRows, Export, OneLineEach, Safe, Columns, Values, PrintRow;
    ExportReads(rows);
    assert forall i :: 0 <= i < |rows| ==> ParsedRow(rows[i]) == Columns(PrintRow(rows[i]));
    assert Map(rows, ParsedRow) == Map(rows, Values) <==> forall i :: 0 <= i < |rows| ==>
      Map(rows, ParsedRow)[i] == Map(rows, Values)[i];
    forall i | 0 <= i < |rows| && forall j :: 0 <= j < |rows[i]| ==> Safe(rows[i][j])
      ensures Columns(PrintRow(rows[i])) == Values(rows[i])
    {
      SafeRowParses(rows[i]);
    }
  }

  lemma {:induction false} SafeRowParses(cells: seq<Cell>)
    requires cells != [] && forall i :: 0 <= i < |cells| ==> Safe(cells[i])
    ensures Columns(PrintRow(cells)) == Values(cells)
  {
    hide Scan, PrintRow, Map, Safe;
    ParseUndoesPrint(cells);
  }
}
