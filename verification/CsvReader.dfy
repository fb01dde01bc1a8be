/** The CSV reader of sample logs, and its agreement with text written under section 2 of RFC 4180. */
module CsvReader {
  import Text

  datatype CsvError = NulCharacter | TextAfterQuote | QuoteInsideField | UnclosedQuote

  datatype Outcome = Parsed(rows: seq<seq<string>>) | Failed(error: CsvError)

  datatype State = State(rows: seq<seq<string>>, row: seq<string>, field: string, quoted: bool, quoteClosed: bool, rowStarted: bool) {

    function FinishField(): State {
      this.(row := row + [field], field := "", quoteClosed := false)
    }

    function FinishRow(): State {
      if rowStarted || field != "" || row != [] || quoteClosed then
        State(rows + [row + [field]], [], "", quoted, false, false)
      else this.(rowStarted := false, quoteClosed := false)
    }
  }

  const START := State([], [], "", false, false, false)

  predicate IsBreak(c: char) { c == '\r' || c == '\n' }

  /** Characters taken by a line break at the head of s: CRLF counts as one break. */
  function BreakLength(s: string): (n: nat)
    requires s != ""
    ensures 1 <= n <= |s|
  {
    if s[0] == '\r' && |s| > 1 && s[1] == '\n' then 2 else 1
  }

  /** What one turn of the loop does at the head of s: characters taken and the next state, or the error. */
  datatype Turn = Took(count: nat, state: State) | Error(error: CsvError)

  function TakeTurn(s: string, st: State): (turn: Turn)
    requires s != ""
    ensures turn.Took? ==> 1 <= turn.count <= |s|
  {
    var c := s[0];
    if c == '\0' then Error(NulCharacter)
    else if st.quoted then
      if c == '"' then
        if |s| > 1 && s[1] == '"' then Took(2, st.(field := st.field + "\""))
        else Took(1, st.(quoted := false, quoteClosed := true))
      else if c == '\r' then Took(BreakLength(s), st.(field := st.field + "\n"))
      else Took(1, st.(field := st.field + [c]))
    else if st.quoteClosed then
      if c == ',' then Took(1, st.FinishField().(rowStarted := true))
      else if IsBreak(c) then Took(BreakLength(s), st.FinishRow())
      else Error(TextAfterQuote)
    else if c == '"' then
      if st.field != "" then Error(QuoteInsideField) else Took(1, st.(quoted := true, rowStarted := true))
    else if c == ',' then Took(1, st.FinishField().(rowStarted := true))
    else if IsBreak(c) then Took(BreakLength(s), st.FinishRow())
    else Took(1, st.(field := st.field + [c], rowStarted := true))
  }

  function Scan(s: string, st: State): Outcome
    decreases |s|
  {
    if s == "" then
      if st.quoted then Failed(UnclosedQuote) else Parsed(st.FinishRow().rows)
    else
      match TakeTurn(s, st)
      case Error(error) => Failed(error)
      case Took(count, next) => Scan(s[count..], next)
  }

  /** The reader's loop, with its six variables. */
  method ParseCsv(input: string) returns (outcome: Outcome)
    ensures outcome == Scan(input, START)
  {
    var rows: seq<seq<string>> := [];
    var row: seq<string> := [];
    var field := "";
    var quoted, quoteClosed, rowStarted := false, false, false;
    var index := 0;
    assert input[0..] == input;
    while index < |input|
      invariant 0 <= index <= |input|
      invariant Scan(input[index..], State(rows, row, field, quoted, quoteClosed, rowStarted)) == Scan(input, START)
    {
      var value := input[index];
      ghost var rest, st := input[index..], State(rows, row, field, quoted, quoteClosed, rowStarted);
      ghost var from := index;
      LookAhead(input, index);
      if value == '\0' {
        return Failed(NulCharacter);
      }
      if quoted {
        if value == '"' {
          if index + 1 < |input| && input[index + 1] == '"' {
            field := field + "\"";
            index := index + 1;
          } else {
            quoted, quoteClosed := false, true;
          }
        } else if value == '\r' {
          if index + 1 < |input| && input[index + 1] == '\n' {
            index := index + 1;
          }
          field := field + "\n";
        } else {
          field := field + [value];
        }
      } else if quoteClosed || value == ',' || IsBreak(value) {
        if value == ',' {
          row, field, quoteClosed := row + [field], "", false;
          rowStarted := true;
        } else if IsBreak(value) {
          if value == '\r' && index + 1 < |input| && input[index + 1] == '\n' {
            index := index + 1;
          }
          if rowStarted || field != "" || row != [] || quoteClosed {
            rows, row, field := rows + [row + [field]], [], "";
          }
          rowStarted, quoteClosed := false, false;
        } else {
          return Failed(TextAfterQuote);
        }
      } else if value == '"' {
        if field != "" {
          return Failed(QuoteInsideField);
        }
        quoted, rowStarted := true, true;
      } else {
        field := field + [value];
        rowStarted := true;
      }
      index := index + 1;
      ScanAdvance(input, from, st, index - from, State(rows, row, field, quoted, quoteClosed, rowStarted));
    }
    assert input[|input|..] == "";
    if quoted {
      return Failed(UnclosedQuote);
    }
    if rowStarted || field != "" || row != [] || quoteClosed {
      rows := rows + [row + [field]];
    }
    return Parsed(rows);
  }

  lemma LookAhead(input: string, index: nat)
    requires index < |input|
    ensures var rest := input[index..];
            && rest != "" && rest[0] == input[index]
            && (|rest| > 1 <==> index + 1 < |input|) && (|rest| > 1 ==> rest[1] == input[index + 1])
  {
  }

  lemma ScanAdvance(input: string, from: nat, st: State, count: nat, next: State)
    requires from < |input| && TakeTurn(input[from..], st) == Took(count, next)
    ensures from + count <= |input| && Scan(input[from + count..], next) == Scan(input[from..], st)
  {
    Text.DropDrop(input, from, count);
  }

  // ----- text written under section 2 of RFC 4180 -----

  datatype Cell = Cell(value: string, quoted: bool)

  datatype LineBreak = Crlf | Lf | Cr

  function BreakText(b: LineBreak): string {
    match b
    case Crlf => "\r\n"
    case Lf => "\n"
    case Cr => "\r"
  }

  datatype Line = Line(cells: seq<Cell>, end: LineBreak)

  /** Quotes inside a quoted field are written twice. */
  function Doubled(value: string): string {
    if value == "" then "" else (if value[0] == '"' then "\"\"" else [value[0]]) + Doubled(value[1..])
  }

  function CellText(cell: Cell): string {
    if cell.quoted then "\"" + (Doubled(cell.value) + "\"") else cell.value
  }

  function RowText(cells: seq<Cell>): string
    requires cells != []
  {
    if |cells| == 1 then CellText(cells[0]) else CellText(cells[0]) + ("," + RowText(cells[1..]))
  }

  predicate BareAllowed(value: string) {
    forall i :: 0 <= i < |value| ==> value[i] != '"' && value[i] != ',' && !IsBreak(value[i])
  }

  /** A row has a field, special characters only inside quotes, and is not a bare empty line. */
  predicate WritableRow(cells: seq<Cell>) {
    && cells != []
    && (forall i :: 0 <= i < |cells| ==> cells[i].quoted || BareAllowed(cells[i].value))
    && cells != [Cell("", false)]
  }

  /** Every line with its break; the last break may be left out. */
  function TableText(lines: seq<Line>, finalBreak: bool): string
    requires forall i :: 0 <= i < |lines| ==> WritableRow(lines[i].cells)
  {
    if lines == [] then ""
    else if |lines| == 1 && !finalBreak then assert WritableRow(lines[0].cells); RowText(lines[0].cells)
    else assert WritableRow(lines[0].cells); RowText(lines[0].cells) + (BreakText(lines[0].end) + TableText(lines[1..], finalBreak))
  }

  /** CRLF and lone CR become LF. */
  function Normalised(value: string): string
    decreases |value|
  {
    if value == "" then ""
    else if value[0] == '\r' then "\n" + Normalised(value[BreakLength(value)..])
    else [value[0]] + Normalised(value[1..])
  }

  function CellValues(cells: seq<Cell>): seq<string> {
    seq(|cells|, i requires 0 <= i < |cells| => Normalised(cells[i].value))
  }

  function TableValues(lines: seq<Line>): seq<seq<string>> {
    seq(|lines|, i requires 0 <= i < |lines| => CellValues(lines[i].cells))
  }

  predicate HasNul(cells: seq<Cell>) {
    exists i :: 0 <= i < |cells| && '\0' in cells[i].value
  }

  predicate TableHasNul(lines: seq<Line>) {
    exists i :: 0 <= i < |lines| && HasNul(lines[i].cells)
  }

  // ----- the scan of each written part -----

  lemma ScanTurn(s: string, st: State)
    requires s != ""
    ensures Scan(s, st) == (match TakeTurn(s, st)
                            case Error(error) => Failed(error)
                            case Took(count, next) => Scan(s[count..], next))
  {
  }

  lemma QuotedPlain(c: char, tail: string, st: State)
    requires st.quoted && c != '\0' && c != '"' && c != '\r'
    ensures Scan([c] + tail, st) == Scan(tail, st.(field := st.field + [c]))
  {
    ScanTurn([c] + tail, st);
    assert ([c] + tail)[1..] == tail;
  }

  lemma QuotedQuote(tail: string, st: State)
    requires st.quoted
    ensures Scan("\"\"" + tail, st) == Scan(tail, st.(field := st.field + "\""))
  {
    ScanTurn("\"\"" + tail, st);
    assert ("\"\"" + tail)[2..] == tail;
  }

  /** CR with or without a following LF is one LF of the field. */
  lemma QuotedReturn(b: LineBreak, tail: string, st: State)
    requires st.quoted && (b.Crlf? || (b.Cr? && (tail == "" || tail[0] != '\n')))
    ensures Scan(BreakText(b) + tail, st) == Scan(tail, st.(field := st.field + "\n"))
  {
    ScanTurn(BreakText(b) + tail, st);
    assert (BreakText(b) + tail)[|BreakText(b)|..] == tail;
  }

  lemma QuotedClose(rest: string, st: State)
    requires st.quoted && (rest == "" || rest[0] != '"')
    ensures Scan("\"" + rest, st) == Scan(rest, st.(quoted := false, quoteClosed := true))
  {
    ScanTurn("\"" + rest, st);
    assert ("\"" + rest)[1..] == rest;
  }

  /** The doubled value as its first unit and the rest. */
  lemma DoubledStep(value: string, rest: string)
    requires value != ""
    ensures Doubled(value) + rest == (if value[0] == '"' then "\"\"" else [value[0]]) + (Doubled(value[1..]) + rest)
  {
  }

  lemma DoubledHead(value: string, rest: string)
    ensures (Doubled(value) + ("\"" + rest))[0] == if value == "" then '"' else value[0]
  {
  }

  /** State behind the closing quote when the rest of the value is still to come. */
  function Closed(st: State, value: string): State {
    st.(field := st.field + Normalised(value), quoted := false, quoteClosed := true)
  }

  lemma ClosedStep(st: State, value: string, k: nat, unit: string)
    requires k <= |value| && Normalised(value) == unit + Normalised(value[k..])
    ensures Closed(st.(field := st.field + unit), value[k..]) == Closed(st, value)
  {
    assert st.field + unit + Normalised(value[k..]) == st.field + (unit + Normalised(value[k..]));
  }

  lemma {:induction false} QuotedBody(value: string, rest: string, st: State)
    requires st.quoted && (rest == "" || rest[0] != '"')
    ensures Scan(Doubled(value) + ("\"" + rest), st) == if '\0' in value then Failed(NulCharacter) else Scan(rest, Closed(st, value))
    decreases |value|
  {
    if value == "" {
      QuotedClose(rest, st);
      assert Doubled(value) + ("\"" + rest) == "\"" + rest;
      assert st.field + "" == st.field;
    } else if value[0] == '\r' && |value| > 1 && value[1] == '\n' {
      QuotedCrLf(value, rest, st);
      QuotedBody(value[2..], rest, st.(field := st.field + "\n"));
      NulStep(value, 2);
      ClosedStep(st, value, 2, "\n");
    } else {
      QuotedUnit(value, rest, st);
      if value[0] != '\0' {
        QuotedBody(value[1..], rest, st.(field := st.field + Unit(value[0])));
        NulStep(value, 1);
        ClosedStep(st, value, 1, Unit(value[0]));
      }
    }
  }

  function Unit(c: char): string { if c == '\r' then "\n" else [c] }

  lemma QuotedCrLf(value: string, rest: string, st: State)
    requires st.quoted && |value| > 1 && value[0] == '\r' && value[1] == '\n'
    ensures Scan(Doubled(value) + ("\"" + rest), st) == Scan(Doubled(value[2..]) + ("\"" + rest), st.(field := st.field + "\n"))
  {
    var tail := "\"" + rest;
    DoubledCrLf(value, tail);
    QuotedReturn(Crlf, Doubled(value[2..]) + tail, st);
  }

  lemma DoubledCrLf(value: string, tail: string)
    requires |value| > 1 && value[0] == '\r' && value[1] == '\n'
    ensures Doubled(value) + tail == BreakText(Crlf) + (Doubled(value[2..]) + tail)
  {
    var second := value[1..];
    DoubledStep(value, tail);
    DoubledStep(second, tail);
    assert second[1..] == value[2..];
    TwoUnits(Doubled(value[2..]) + tail);
  }

  lemma TwoUnits(after: string)
    ensures "\r" + ("\n" + after) == BreakText(Crlf) + after
  {
  }

  lemma QuotedUnit(value: string, rest: string, st: State)
    requires st.quoted && value != "" && (value[0] == '\r' && |value| > 1 ==> value[1] != '\n')
    ensures Scan(Doubled(value) + ("\"" + rest), st) ==
            if value[0] == '\0' then Failed(NulCharacter)
            else Scan(Doubled(value[1..]) + ("\"" + rest), st.(field := st.field + Unit(value[0])))
  {
    var tail := Doubled(value[1..]) + ("\"" + rest);
    DoubledStep(value, "\"" + rest);
    DoubledHead(value[1..], rest);
    if value[0] == '"' {
      QuotedQuote(tail, st);
    } else if value[0] == '\r' {
      QuotedReturn(Cr, tail, st);
    } else if value[0] == '\0' {
      ScanTurn([value[0]] + tail, st);
    } else {
      QuotedPlain(value[0], tail, st);
    }
  }

  lemma NulStep(value: string, k: nat)
    requires k <= |value| && forall i :: 0 <= i < k ==> value[i] != '\0'
    ensures '\0' in value <==> '\0' in value[k..]
  {
    assert value == value[..k] + value[k..];
  }

  lemma {:induction false} BareBody(value: string, rest: string, st: State)
    requires BareAllowed(value) && !st.quoted && !st.quoteClosed
    ensures Scan(value + rest, st) ==
            if '\0' in value then Failed(NulCharacter)
            else Scan(rest, st.(field := st.field + value, rowStarted := st.rowStarted || value != ""))
    ensures '\0' !in value ==> Normalised(value) == value
  {
    if value == "" {
      assert value + rest == rest && st.field + value == st.field;
    } else {
      var s := value + rest;
      ScanTurn(s, st);
      assert s[1..] == value[1..] + rest;
      var next := st.(field := st.field + [value[0]], rowStarted := true);
      BareBody(value[1..], rest, next);
      assert next.field + value[1..] == st.field + value;
      assert value == [value[0]] + value[1..];
    }
  }

  /** State after the text of a cell, before what ends it. */
  function AfterCell(st: State, cell: Cell): State {
    st.(field := Normalised(cell.value), quoteClosed := cell.quoted, rowStarted := st.rowStarted || cell.quoted || cell.value != "")
  }

  predicate FieldStart(st: State) { st.field == "" && !st.quoted && !st.quoteClosed }

  lemma CellScan(cell: Cell, rest: string, st: State)
    requires cell.quoted || BareAllowed(cell.value)
    requires FieldStart(st) && (rest == "" || rest[0] != '"')
    ensures Scan(CellText(cell) + rest, st) == if '\0' in cell.value then Failed(NulCharacter) else Scan(rest, AfterCell(st, cell))
  {
    if cell.quoted {
      var body := Doubled(cell.value) + ("\"" + rest);
      var s := CellText(cell) + rest;
      assert s == "\"" + body && s[1..] == body;
      ScanTurn(s, st);
      QuotedBody(cell.value, rest, st.(quoted := true, rowStarted := true));
      assert "" + Normalised(cell.value) == Normalised(cell.value);
    } else {
      BareBody(cell.value, rest, st);
      assert "" + cell.value == cell.value;
    }
  }

  /** State after a whole row's text, before the line break. */
  function AfterRow(st: State, cells: seq<Cell>): State
    requires cells != []
    decreases |cells|
  {
    if |cells| == 1 then AfterCell(st, cells[0])
    else AfterRow(AfterCell(st, cells[0]).FinishField().(rowStarted := true), cells[1..])
  }

  lemma {:induction false} RowScan(cells: seq<Cell>, rest: string, st: State)
    requires cells != [] && forall i :: 0 <= i < |cells| ==> cells[i].quoted || BareAllowed(cells[i].value)
    requires FieldStart(st) && (rest == "" || rest[0] != '"')
    ensures Scan(RowText(cells) + rest, st) == if HasNul(cells) then Failed(NulCharacter) else Scan(rest, AfterRow(st, cells))
    decreases |cells|
  {
    NulInRow(cells);
    if |cells| == 1 {
      CellScan(cells[0], rest, st);
    } else {
      var tail := RowText(cells[1..]) + rest;
      assert RowText(cells) + rest == CellText(cells[0]) + ("," + tail);
      CellScan(cells[0], "," + tail, st);
      ScanTurn("," + tail, AfterCell(st, cells[0]));
      assert ("," + tail)[1..] == tail;
      RowScan(cells[1..], rest, AfterCell(st, cells[0]).FinishField().(rowStarted := true));
    }
  }

  lemma NulInRow(cells: seq<Cell>)
    requires cells != []
    ensures HasNul(cells) <==> '\0' in cells[0].value || HasNul(cells[1..])
  {
    if HasNul(cells) {
      var i :| 0 <= i < |cells| && '\0' in cells[i].value;
      assert i > 0 ==> '\0' in cells[1..][i - 1].value;
    }
    if i :| 0 <= i < |cells[1..]| && '\0' in cells[1..][i].value {
      assert '\0' in cells[i + 1].value;
    }
  }

  /** When the row ends, its normalised values are appended as one row. */
  lemma {:induction false} RowValues(cells: seq<Cell>, st: State)
    requires cells != [] && FieldStart(st)
    ensures var after := AfterRow(st, cells);
            && !after.quoted && after.rows == st.rows
            && after.row + [after.field] == st.row + CellValues(cells)
            && (after.rowStarted || after.quoteClosed <==> st.rowStarted || cells != [Cell("", false)])
    decreases |cells|
  {
    if |cells| > 1 {
      var next := AfterCell(st, cells[0]).FinishField().(rowStarted := true);
      RowValues(cells[1..], next);
      assert CellValues(cells) == [Normalised(cells[0].value)] + CellValues(cells[1..]);
    } else {
      assert cells == [cells[0]];
      assert CellValues(cells) == [Normalised(cells[0].value)];
    }
  }

  lemma RowEnds(cells: seq<Cell>, rows: seq<seq<string>>)
    requires WritableRow(cells)
    ensures AfterRow(START.(rows := rows), cells).FinishRow() == START.(rows := rows + [CellValues(cells)])
  {
    RowValues(cells, START.(rows := rows));
    assert [] + CellValues(cells) == CellValues(cells);
  }

  lemma BreakScan(b: LineBreak, rest: string, st: State)
    requires !st.quoted && (rest == "" || rest[0] != '\n')
    ensures Scan(BreakText(b) + rest, st) == Scan(rest, st.FinishRow())
  {
    var s := BreakText(b) + rest;
    ScanTurn(s, st);
    assert s[|BreakText(b)|..] == rest;
  }

  lemma TextStart(lines: seq<Line>, finalBreak: bool)
    requires forall i :: 0 <= i < |lines| ==> WritableRow(lines[i].cells)
    ensures var t := TableText(lines, finalBreak); t == "" || t[0] != '\n'
  {
    if lines != [] {
      var cells := lines[0].cells;
      assert WritableRow(cells);
      assert CellText(cells[0]) != "" ==> CellText(cells[0])[0] != '\n';
    }
  }

  /** The reader gives back the written table with line breaks in fields normalised, and refuses it exactly for a NUL. */
  lemma {:induction false} TableScan(lines: seq<Line>, finalBreak: bool, rows: seq<seq<string>>)
    requires forall i :: 0 <= i < |lines| ==> WritableRow(lines[i].cells)
    ensures Scan(TableText(lines, finalBreak), START.(rows := rows)) ==
            if TableHasNul(lines) then Failed(NulCharacter) else Parsed(rows + TableValues(lines))
    decreases |lines|
  {
    var st := START.(rows := rows);
    if lines == [] {
      assert rows + TableValues(lines) == rows;
    } else {
      var cells, others := lines[0].cells, lines[1..];
      assert WritableRow(cells);
      RowEnds(cells, rows);
      RowValues(cells, st);
      TableNulStep(lines);
      assert rows + [CellValues(cells)] + TableValues(others) == rows + TableValues(lines);
      if |lines| == 1 && !finalBreak {
        RowScan(cells, "", st);
        assert RowText(cells) + "" == RowText(cells);
        assert TableValues(others) == [] && !TableHasNul(others);
      } else {
        var rest := TableText(others, finalBreak);
        TextStart(others, finalBreak);
        RowScan(cells, BreakText(lines[0].end) + rest, st);
        BreakScan(lines[0].end, rest, AfterRow(st, cells));
        TableScan(others, finalBreak, rows + [CellValues(cells)]);
      }
    }
  }

  lemma TableNulStep(lines: seq<Line>)
    requires lines != []
    ensures TableHasNul(lines) <==> HasNul(lines[0].cells) || TableHasNul(lines[1..])
  {
    if TableHasNul(lines) {
      var i :| 0 <= i < |lines| && HasNul(lines[i].cells);
      assert i > 0 ==> HasNul(lines[1..][i - 1].cells);
    }
    if i :| 0 <= i < |lines[1..]| && HasNul(lines[1..][i].cells) {
      assert HasNul(lines[i + 1].cells);
    }
  }

  lemma CsvRoundTrip(lines: seq<Line>, finalBreak: bool)
    requires forall i :: 0 <= i < |lines| ==> WritableRow(lines[i].cells)
    ensures Scan(TableText(lines, finalBreak), START) ==
            if TableHasNul(lines) then Failed(NulCharacter) else Parsed(TableValues(lines))
  {
    TableScan(lines, finalBreak, []);
    assert [] + TableValues(lines) == TableValues(lines);
  }

  // ----- loading samples -----

  datatype LoadResult =
    | Samples(samples: seq<string>)
    | BadCsv(error: CsvError)
    | NoRows
    | ColumnCount(row: nat, columns: nat)
    | EmptySample(row: nat)
    | NoSamples

  const BOM := "\U{EF}\U{BB}\U{BF}"

  predicate IsBlank(c: char) { c == ' ' || c == '\t' }

  function TrimLeft(s: string): string {
    if s != "" && IsBlank(s[0]) then TrimLeft(s[1..]) else s
  }

  function TrimRight(s: string): string {
    if s != "" && IsBlank(s[|s| - 1]) then TrimRight(s[..|s| - 1]) else s
  }

  function Lower(s: string): string {
    seq(|s|, i requires 0 <= i < |s| => if 'A' <= s[i] <= 'Z' then s[i] + 32 as char else s[i])
  }

  /** "sample", "sample_log", or the two Korean headings, as UTF-8 bytes. */
  const HEADERS: set<string> := {
    "sample", "sample_log",
    "\U{EC}\U{83}\U{98}\U{ED}\U{94}\U{8C}\U{EB}\U{A1}\U{9C}\U{EA}\U{B7}\U{B8}",
    "\U{EC}\U{83}\U{98}\U{ED}\U{94}\U{8C} \U{EB}\U{A1}\U{9C}\U{EA}\U{B7}\U{B8}"
  }

  predicate IsOptionalHeader(value: string) {
    Lower(TrimRight(TrimLeft(value))) in HEADERS
  }

  function WithoutBom(content: string): string {
    if BOM <= content then content[|BOM|..] else content
  }

  method LoadSamples(content: string) returns (result: LoadResult)
    ensures LoadedFrom(Scan(WithoutBom(content), START), result)
  {
    var outcome := ParseCsv(WithoutBom(content));
    if outcome.Failed? {
      return BadCsv(outcome.error);
    }
    var rows := outcome.rows;
    if rows == [] {
      return NoRows;
    }
    for index := 0 to |rows|
      invariant forall i :: 0 <= i < index ==> |rows[i]| == 1
    {
      if |rows[index]| != 1 {
        return ColumnCount(index, |rows[index]|);
      }
    }
    var first := FirstSample(rows);
    var samples: seq<string> := [];
    for index := first to |rows|
      invariant |samples| == index - first
      invariant forall i :: first <= i < index ==> rows[i][0] != "" && samples[i - first] == rows[i][0]
    {
      if rows[index][0] == "" {
        return EmptySample(index);
      }
      samples := samples + [rows[index][0]];
    }
    if samples == [] {
      return NoSamples;
    }
    return Samples(samples);
  }

  predicate OneColumn(rows: seq<seq<string>>) {
    forall i :: 0 <= i < |rows| ==> |rows[i]| == 1
  }

  function FirstSample(rows: seq<seq<string>>): nat
    requires rows != [] && OneColumn(rows)
  {
    if IsOptionalHeader(rows[0][0]) then 1 else 0
  }

  /** The result a parse calls for: its error, the first fault in row order, or all samples below an optional heading. */
  ghost predicate LoadedFrom(outcome: Outcome, result: LoadResult) {
    if outcome.Failed? then result == BadCsv(outcome.error)
    else
      var rows := outcome.rows;
      match result
      case BadCsv(_) => false
      case NoRows => rows == []
      case ColumnCount(row, columns) => row < |rows| && columns == |rows[row]| != 1 && forall i :: 0 <= i < row ==> |rows[i]| == 1
      case EmptySample(row) =>
        rows != [] && OneColumn(rows) && FirstSample(rows) <= row < |rows| && rows[row][0] == ""
        && forall i :: FirstSample(rows) <= i < row ==> rows[i][0] != ""
      case NoSamples => rows != [] && OneColumn(rows) && |rows| == FirstSample(rows)
      case Samples(samples) =>
        rows != [] && OneColumn(rows) && samples != [] && |samples| == |rows| - FirstSample(rows)
        && forall i :: FirstSample(rows) <= i < |rows| ==> samples[i - FirstSample(rows)] == rows[i][0] != ""
  }

  /** The parse alone fixes the result. */
  lemma LoadedOnce(outcome: Outcome, a: LoadResult, b: LoadResult)
    requires LoadedFrom(outcome, a) && LoadedFrom(outcome, b)
    ensures a == b
  {
    if outcome.Parsed? {
      var rows := outcome.rows;
      if a.Samples? && b.Samples? {
        forall k | 0 <= k < |a.samples| ensures a.samples[k] == b.samples[k] {
          assert rows[FirstSample(rows) + k][0] == a.samples[FirstSample(rows) + k - FirstSample(rows)];
        }
      }
    }
  }

  /** The samples of a one-column table: its fields, without an optional heading. */
  function ColumnSamples(rows: seq<seq<string>>): seq<string>
    requires rows != [] && OneColumn(rows)
  {
    seq(|rows| - FirstSample(rows), i requires 0 <= i < |rows| - FirstSample(rows) => rows[FirstSample(rows) + i][0])
  }

  lemma OneColumnLoads(rows: seq<seq<string>>, result: LoadResult)
    requires rows != [] && OneColumn(rows) && forall i :: 0 <= i < |rows| ==> rows[i][0] != ""
    requires LoadedFrom(Parsed(rows), result)
    ensures result == if ColumnSamples(rows) == [] then NoSamples else Samples(ColumnSamples(rows))
  {
    var samples := ColumnSamples(rows);
    var wanted := if samples == [] then NoSamples else Samples(samples);
    assert LoadedFrom(Parsed(rows), wanted);
    LoadedOnce(Parsed(rows), wanted, result);
  }

  /** A file with one written, non-empty sample per line loads as those samples; a leading heading line is skipped. */
  lemma LoadRoundTrip(lines: seq<Line>, finalBreak: bool, result: LoadResult)
    requires forall i :: 0 <= i < |lines| ==> |lines[i].cells| == 1 && WritableRow(lines[i].cells) && lines[i].cells[0].value != ""
    requires lines != [] && !TableHasNul(lines)
    requires LoadedFrom(Scan(TableText(lines, finalBreak), START), result)
    ensures var rows := TableValues(lines);
            && OneColumn(rows)
            && result == if ColumnSamples(rows) == [] then NoSamples else Samples(ColumnSamples(rows))
  {
    CsvRoundTrip(lines, finalBreak);
    var rows := TableValues(lines);
    forall i | 0 <= i < |rows| ensures |rows[i]| == 1 && rows[i][0] != "" {
      assert rows[i] == CellValues(lines[i].cells);
      assert Normalised(lines[i].cells[0].value) != "";
    }
    OneColumnLoads(rows, result);
  }
}
