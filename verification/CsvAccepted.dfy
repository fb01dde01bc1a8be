/** The inputs that the CSV reader accepts: written tables, with blank lines between their rows. */
module CsvAccepted {
  import opened Options
  import opened CsvReader

  // ----- taking a cell off the input -----

  /** The value in front of the closing quote and what is behind it. */
  datatype Quoted = Quoted(value: string, rest: string)

  function UpToQuote(s: string): Option<Quoted>
    decreases |s|
  {
    if s == "" then None
    else if s[0] == '"' && (|s| == 1 || s[1] != '"') then Some(Quoted("", s[1..]))
    else
      match UpToQuote(if s[0] == '"' then s[2..] else s[1..])
      case None => None
      case Some(q) => Some(Quoted([s[0]] + q.value, q.rest))
  }

  lemma QuotedIsWritten(first: char, s: string, value: string, rest: string, tail: string)
    requires tail == Doubled(value) + ("\"" + rest) && s == (if first == '"' then "\"\"" else [first]) + tail
    ensures s == Doubled([first] + value) + ("\"" + rest)
  {
    assert ([first] + value)[1..] == value;
    DoubledStep([first] + value, "\"" + rest);
  }

  lemma {:induction false} QuoteFound(s: string)
    ensures UpToQuote(s).Some? ==>
              var q := UpToQuote(s).value;
              s == Doubled(q.value) + ("\"" + q.rest) && (q.rest == "" || q.rest[0] != '"')
    decreases |s|
  {
    if s != "" {
      if s[0] == '"' && (|s| == 1 || s[1] != '"') {
        assert s == Doubled("") + ("\"" + s[1..]);
      } else {
        var tail := if s[0] == '"' then s[2..] else s[1..];
        QuoteFound(tail);
        if UpToQuote(tail).Some? {
          assert s == (if s[0] == '"' then "\"\"" else [s[0]]) + tail;
          QuotedIsWritten(s[0], s, UpToQuote(tail).value.value, UpToQuote(tail).value.rest, tail);
        }
      }
    }
  }

  lemma {:induction false} NeverClosed(s: string, st: State)
    requires st.quoted && UpToQuote(s).None?
    ensures Scan(s, st).Failed?
    decreases |s|
  {
    if s != "" && s[0] != '\0' {
      ScanTurn(s, st);
      var turn := TakeTurn(s, st);
      if s[0] == '\r' && |s| > 1 && s[1] == '\n' {
        assert s[1..][1..] == s[2..] && s[1..][0] == '\n';
        assert UpToQuote(s[1..]).None?;
      }
      NeverClosed(s[turn.count..], turn.state);
    }
  }

  predicate Special(c: char) { c == '"' || c == ',' || IsBreak(c) }

  function Bare(s: string): string {
    if s == "" || Special(s[0]) then "" else [s[0]] + Bare(s[1..])
  }

  lemma {:induction false} BareIsFront(s: string)
    ensures |Bare(s)| <= |s| && s == Bare(s) + s[|Bare(s)|..] && BareAllowed(Bare(s))
    ensures |Bare(s)| < |s| ==> Special(s[|Bare(s)|])
    ensures Bare(s) == "" ==> s == "" || Special(s[0])
  {
    if s != "" && !Special(s[0]) {
      BareIsFront(s[1..]);
      assert s == [s[0]] + s[1..];
    }
  }

  /** What may stand behind a cell. */
  predicate EndsCell(rest: string) { rest == "" || rest[0] == ',' || IsBreak(rest[0]) }

  predicate Readable(cell: Cell) { (cell.quoted || BareAllowed(cell.value)) && '\0' !in cell.value }

  lemma TakeQuoted(s: string, st: State) returns (cell: Cell, rest: string)
    requires FieldStart(st) && s != "" && s[0] == '"' && Scan(s, st).Parsed?
    ensures s == CellText(cell) + rest && Readable(cell) && EndsCell(rest) && Scan(s, st) == Scan(rest, AfterCell(st, cell))
  {
    ScanTurn(s, st);
    if UpToQuote(s[1..]).None? {
      NeverClosed(s[1..], st.(quoted := true, rowStarted := true));
      assert false;
    }
    var q := UpToQuote(s[1..]).value;
    cell, rest := Cell(q.value, true), q.rest;
    QuoteFound(s[1..]);
    assert s == "\"" + s[1..] && CellText(cell) + rest == "\"" + (Doubled(q.value) + ("\"" + rest));
    CellScan(cell, rest, st);
    if rest != "" {
      ScanTurn(rest, AfterCell(st, cell));
    }
  }

  lemma TakeBare(s: string, st: State) returns (cell: Cell, rest: string)
    requires FieldStart(st) && (s == "" || s[0] != '"') && Scan(s, st).Parsed?
    ensures s == CellText(cell) + rest && Readable(cell) && EndsCell(rest) && Scan(s, st) == Scan(rest, AfterCell(st, cell))
  {
    var value := Bare(s);
    BareIsFront(s);
    cell, rest := Cell(value, false), s[|value|..];
    BareBody(value, rest, st);
    assert "" + value == value;
    if rest != "" {
      ScanTurn(rest, AfterCell(st, cell));
    }
  }

  lemma TakeCell(s: string, st: State) returns (cell: Cell, rest: string)
    requires FieldStart(st) && Scan(s, st).Parsed?
    ensures s == CellText(cell) + rest && Readable(cell) && EndsCell(rest) && Scan(s, st) == Scan(rest, AfterCell(st, cell))
  {
    if s != "" && s[0] == '"' {
      cell, rest := TakeQuoted(s, st);
    } else {
      cell, rest := TakeBare(s, st);
    }
  }

  // ----- rows -----

  /** A row that can be written, a blank line included. */
  predicate AnyRow(cells: seq<Cell>) {
    cells != [] && forall i :: 0 <= i < |cells| ==> Readable(cells[i])
  }

  predicate EndsRow(rest: string) { rest == "" || IsBreak(rest[0]) }

  lemma RowCons(cell: Cell, cells: seq<Cell>, s: string, tail: string, rest: string)
    requires cells != [] && s == CellText(cell) + ("," + tail) && tail == RowText(cells) + rest
    ensures s == RowText([cell] + cells) + rest
  {
    assert ([cell] + cells)[1..] == cells;
    assert RowText([cell] + cells) == CellText(cell) + ("," + RowText(cells));
  }

  lemma AfterRowCons(st: State, cell: Cell, cells: seq<Cell>)
    requires cells != []
    ensures AfterRow(st, [cell] + cells) == AfterRow(AfterCell(st, cell).FinishField().(rowStarted := true), cells)
  {
    assert ([cell] + cells)[1..] == cells;
  }

  lemma {:induction false} TakeRow(s: string, st: State) returns (cells: seq<Cell>, rest: string)
    requires FieldStart(st) && Scan(s, st).Parsed?
    ensures AnyRow(cells) && s == RowText(cells) + rest && EndsRow(rest) && Scan(s, st) == Scan(rest, AfterRow(st, cells))
    decreases |s|
  {
    var cell;
    cell, rest := TakeCell(s, st);
    cells := [cell];
    if rest != "" && rest[0] == ',' {
      var tail, next := rest[1..], AfterCell(st, cell).FinishField().(rowStarted := true);
      assert rest == "," + tail;
      ScanTurn(rest, AfterCell(st, cell));
      var others;
      others, rest := TakeRow(tail, next);
      RowCons(cell, others, s, tail, rest);
      AfterRowCons(st, cell, others);
      cells := [cell] + others;
    }
  }

  // ----- files -----

  predicate AllRows(lines: seq<Line>) { forall i :: 0 <= i < |lines| ==> AnyRow(lines[i].cells) }

  /** Every line with its break, blank lines included; the last break may be left out. */
  function FileText(lines: seq<Line>, finalBreak: bool): string
    requires AllRows(lines)
  {
    if lines == [] then ""
    else if |lines| == 1 && !finalBreak then assert AnyRow(lines[0].cells); RowText(lines[0].cells)
    else assert AnyRow(lines[0].cells); RowText(lines[0].cells) + (BreakText(lines[0].end) + FileText(lines[1..], finalBreak))
  }

  predicate IsBlankLine(line: Line) { line.cells == [Cell("", false)] }

  /** The values of the lines that are not blank. */
  function FileValues(lines: seq<Line>): seq<seq<string>> {
    if lines == [] then []
    else (if IsBlankLine(lines[0]) then [] else [CellValues(lines[0].cells)]) + FileValues(lines[1..])
  }

  /** No lone CR stands in front of an LF, with which it would be one break. */
  predicate WellJoined(lines: seq<Line>, finalBreak: bool)
    requires AllRows(lines)
  {
    lines == [] ||
    (var rest := FileText(lines[1..], finalBreak);
     (lines[0].end.Cr? && (|lines| > 1 || finalBreak) ==> rest == "" || rest[0] != '\n') && WellJoined(lines[1..], finalBreak))
  }

  /** The rows of a table, written in lines with any breaks. */
  ghost predicate IsFile(input: string, rows: seq<seq<string>>, lines: seq<Line>, finalBreak: bool) {
    AllRows(lines) && WellJoined(lines, finalBreak) && input == FileText(lines, finalBreak) && rows == FileValues(lines)
  }

  lemma JoinedScan(b: LineBreak, rest: string, st: State)
    requires !st.quoted && (b.Cr? ==> rest == "" || rest[0] != '\n')
    ensures Scan(BreakText(b) + rest, st) == Scan(rest, st.FinishRow())
  {
    var s := BreakText(b) + rest;
    ScanTurn(s, st);
    assert s[|BreakText(b)|..] == rest;
  }

  /** A finished row is appended, a blank line is not. */
  lemma LineEnds(cells: seq<Cell>, end: LineBreak, rows: seq<seq<string>>)
    requires AnyRow(cells)
    ensures var after := AfterRow(START.(rows := rows), cells);
            && !after.quoted
            && after.FinishRow() == START.(rows := if IsBlankLine(Line(cells, end)) then rows else rows + [CellValues(cells)])
  {
    RowValues(cells, START.(rows := rows));
    assert [] + CellValues(cells) == CellValues(cells);
    if cells == [Cell("", false)] {
      assert AfterRow(START.(rows := rows), cells) == START.(rows := rows);
    }
  }

  lemma ReadableRow(cells: seq<Cell>, rest: string, st: State)
    requires AnyRow(cells) && FieldStart(st) && EndsRow(rest)
    ensures Scan(RowText(cells) + rest, st) == Scan(rest, AfterRow(st, cells))
  {
    RowScan(cells, rest, st);
  }

  /** One line and its break. */
  lemma LineScan(line: Line, next: string, rows: seq<seq<string>>)
    requires AnyRow(line.cells) && (line.end.Cr? ==> next == "" || next[0] != '\n')
    ensures Scan(RowText(line.cells) + (BreakText(line.end) + next), START.(rows := rows))
            == Scan(next, START.(rows := if IsBlankLine(line) then rows else rows + [CellValues(line.cells)]))
  {
    var st := START.(rows := rows);
    LineEnds(line.cells, line.end, rows);
    ReadableRow(line.cells, BreakText(line.end) + next, st);
    JoinedScan(line.end, next, AfterRow(st, line.cells));
  }

  /** The last line without its break. */
  lemma LastLineScan(line: Line, rows: seq<seq<string>>)
    requires AnyRow(line.cells)
    ensures Scan(RowText(line.cells), START.(rows := rows)) == Parsed(if IsBlankLine(line) then rows else rows + [CellValues(line.cells)])
  {
    LineEnds(line.cells, line.end, rows);
    ReadableRow(line.cells, "", START.(rows := rows));
    assert RowText(line.cells) + "" == RowText(line.cells);
  }

  lemma ValuesCons(lines: seq<Line>, rows: seq<seq<string>>)
    requires lines != []
    ensures rows + FileValues(lines)
            == (if IsBlankLine(lines[0]) then rows else rows + [CellValues(lines[0].cells)]) + FileValues(lines[1..])
  {
  }

  /** A file reads as its rows. */
  lemma {:induction false} FileReads(lines: seq<Line>, finalBreak: bool, rows: seq<seq<string>>)
    requires AllRows(lines) && WellJoined(lines, finalBreak)
    ensures Scan(FileText(lines, finalBreak), START.(rows := rows)) == Parsed(rows + FileValues(lines))
    decreases |lines|
  {
    if lines == [] {
      assert rows + FileValues(lines) == rows;
    } else {
      var longer := if IsBlankLine(lines[0]) then rows else rows + [CellValues(lines[0].cells)];
      assert AnyRow(lines[0].cells);
      ValuesCons(lines, rows);
      if |lines| == 1 && !finalBreak {
        LastLineScan(lines[0], rows);
        assert longer + FileValues(lines[1..]) == longer;
      } else {
        LineScan(lines[0], FileText(lines[1..], finalBreak), rows);
        FileReads(lines[1..], finalBreak, longer);
      }
    }
  }

  /** The break at the head of the input. */
  lemma TakeBreak(s: string) returns (b: LineBreak, rest: string)
    requires s != "" && IsBreak(s[0])
    ensures s == BreakText(b) + rest && (b.Cr? ==> rest == "" || rest[0] != '\n')
  {
    b := if BreakLength(s) == 2 then Crlf else if s[0] == '\n' then Lf else Cr;
    rest := s[BreakLength(s)..];
  }

  lemma LinePut(line: Line, others: seq<Line>, finalBreak: bool, s: string, rest: string, next: string)
    requires AllRows(others) && WellJoined(others, finalBreak) && next == FileText(others, finalBreak)
    requires AnyRow(line.cells) && s == RowText(line.cells) + rest && rest == BreakText(line.end) + next
    requires line.end.Cr? ==> next == "" || next[0] != '\n'
    requires others == [] ==> finalBreak
    ensures var lines := [line] + others;
            AllRows(lines) && WellJoined(lines, finalBreak) && s == FileText(lines, finalBreak)
            && FileValues(lines) == (if IsBlankLine(line) then [] else [CellValues(line.cells)]) + FileValues(others)
  {
    var lines := [line] + others;
    assert lines[1..] == others;
  }

  lemma {:induction false} FileOf(s: string, rows: seq<seq<string>>) returns (lines: seq<Line>, finalBreak: bool)
    requires Scan(s, START.(rows := rows)).Parsed?
    ensures AllRows(lines) && WellJoined(lines, finalBreak) && s == FileText(lines, finalBreak)
    decreases |s|
  {
    var st := START.(rows := rows);
    var cells, rest := TakeRow(s, st);
    if rest == "" {
      lines, finalBreak := [Line(cells, Lf)], false;
      assert RowText(cells) + "" == RowText(cells);
    } else {
      var b, next := TakeBreak(rest);
      LineEnds(cells, b, rows);
      JoinedScan(b, next, AfterRow(st, cells));
      var others;
      others, finalBreak := FileOf(next, AfterRow(st, cells).FinishRow().rows);
      if others == [] {
        finalBreak := true;
      }
      LinePut(Line(cells, b), others, finalBreak, s, rest, next);
      lines := [Line(cells, b)] + others;
    }
  }

  /** The reader accepts an input with these rows if and only if it is a file of them: rows of readable cells, each
      with a line break of any kind, with any number of blank lines between them. */
  lemma AcceptedExactly(input: string, rows: seq<seq<string>>)
    ensures Scan(input, START) == Parsed(rows) <==> exists lines: seq<Line>, finalBreak: bool :: IsFile(input, rows, lines, finalBreak)
  {
    if Scan(input, START) == Parsed(rows) {
      var lines, finalBreak := FileOf(input, []);
      FileReads(lines, finalBreak, []);
      assert [] + FileValues(lines) == FileValues(lines);
      assert IsFile(input, rows, lines, finalBreak);
    }
    forall lines: seq<Line>, finalBreak: bool | IsFile(input, rows, lines, finalBreak) ensures Scan(input, START) == Parsed(rows) {
      FileReads(lines, finalBreak, []);
      assert [] + FileValues(lines) == FileValues(lines);
    }
  }
}
