/** `parseCsvRows`, and the round trip with a writer of quoted and plain cells. */
module Csv {
  import opened Options
  import opened Sequences
  import opened JsText

  datatype Cell = Cell(value: string, quoted: bool)

  /** The variables of the loop. */
  datatype State = State(rows: seq<seq<Cell>>, row: seq<Cell>, field: string, quoted: bool, wasQuoted: bool)

  const START := State([], [], "", false, false)

  function CellOf(field: string, wasQuoted: bool): Cell {
    Cell(if wasQuoted then field else Trim(field), wasQuoted)
  }

  function PushField(st: State): State {
    st.(row := st.row + [CellOf(st.field, st.wasQuoted)], field := "", wasQuoted := false)
  }

  /** A row that is a single empty cell is dropped. */
  predicate Keeps(row: seq<Cell>) {
    |row| > 1 || (|row| == 1 && row[0].value != "")
  }

  function PushRow(st: State): State {
    st.(rows := if Keeps(st.row) then st.rows + [st.row] else st.rows, row := [])
  }

  /** One turn of the loop on a character, the one after it being `next`: how many of them it uses,
      and the new state. */
  function TurnOn(c: char, next: Option<char>, st: State): (r: (nat, State))
    ensures 1 <= r.0 <= if next.Some? then 2 else 1
  {
    if st.quoted then
      if c == '"' && next == Some('"') then (2, st.(field := st.field + "\""))
      else if c == '"' then (1, st.(quoted := false))
      else (1, st.(field := st.field + [c]))
    else if c == '"' && st.field == "" then (1, st.(quoted := true, wasQuoted := true))
    else if c == ',' then (1, PushField(st))
    else if c == '\n' then (1, PushRow(PushField(st)))
    else if c == '\r' then (if next == Some('\n') then 2 else 1, PushRow(PushField(st)))
    else (1, st.(field := st.field + [c]))
  }

  function CharAt(s: string, i: nat): Option<char> {
    if i < |s| then Some(s[i]) else None
  }

  function Turn(s: string, st: State): (r: (nat, State))
    requires s != ""
    ensures 1 <= r.0 <= |s|
  {
    TurnOn(s[0], CharAt(s, 1), st)
  }

  function Scan(s: string, st: State): State
    decreases |s|
  {
    if s == "" then st else var (n, next) := Turn(s, st); Scan(s[n..], next)
  }

  /** None is the error for an unterminated quote. */
  function ParseRows(text: string): Option<seq<seq<Cell>>> {
    var st := Scan(text, START);
    if st.quoted then None else Some(PushRow(PushField(st)).rows)
  }

  lemma ScanStep(text: string, start: nat, st: State, index: nat, next: State)
    requires start < |text| && TurnOn(text[start], CharAt(text, start + 1), st) == (index - start, next)
    ensures index <= |text| && Scan(text[index..], next) == Scan(text[start..], st)
  {
    assert text[start..][index - start..] == text[index..];
  }

  method ParseCsvRows(text: string) returns (r: Option<seq<seq<Cell>>>)
    ensures r == ParseRows(text)
  {
    var rows: seq<seq<Cell>>, row: seq<Cell>, field, quoted, wasQuoted := [], [], "", false, false;
    var index := 0;
    while index < |text|
      invariant 0 <= index <= |text|
      invariant Scan(text[index..], State(rows, row, field, quoted, wasQuoted)) == Scan(text, START)
      invariant quoted ==> wasQuoted
    {
      var c := text[index];
      ghost var st, start := State(rows, row, field, quoted, wasQuoted), index;
      if quoted {
        if c == '"' && index + 1 < |text| && text[index + 1] == '"' {
          field := field + "\"";
          index := index + 1;
        } else if c == '"' {
          quoted := false;
        } else {
          field := field + [c];
        }
      } else if c == '"' && field == "" {
        quoted, wasQuoted := true, true;
      } else if c == ',' || c == '\n' || c == '\r' {
        row := row + [CellOf(field, wasQuoted)];
        field, wasQuoted := "", false;
        if c != ',' {
          if Keeps(row) {
            rows := rows + [row];
          }
          row := [];
          if c == '\r' && index + 1 < |text| && text[index + 1] == '\n' {
            index := index + 1;
          }
        }
      } else {
        field := field + [c];
      }
      index := index + 1;
      ScanStep(text, start, st, index, State(rows, row, field, quoted, wasQuoted));
    }
    if quoted {
      return None;
    }
    row := row + [CellOf(field, wasQuoted)];
    if Keeps(row) {
      rows := rows + [row];
    }
    return Some(rows);
  }

  // ---------------------------------------------------------------- a writer

  datatype LineEnd = LF | CR | CRLF

  function EndText(end: LineEnd): string {
    match end case LF => "\n" case CR => "\r" case CRLF => "\r\n"
  }

  /** RFC 4180, section 2, rule 7: a quote inside a quoted cell is doubled. */
  function DoubleQuotes(s: string): string {
    if s == "" then "" else (if s[0] == '"' then "\"\"" else [s[0]]) + DoubleQuotes(s[1..])
  }

  function WriteCell(cell: Cell): string {
    if cell.quoted then "\"" + DoubleQuotes(cell.value) + "\"" else cell.value
  }

  function WriteRow(row: seq<Cell>): string {
    if row == [] then ""
    else if |row| == 1 then WriteCell(row[0])
    else WriteCell(row[0]) + ("," + WriteRow(row[1..]))
  }

  function WriteRows(rows: seq<seq<Cell>>, end: LineEnd): string {
    if rows == [] then ""
    else if |rows| == 1 then WriteRow(rows[0])
    else WriteRow(rows[0]) + (EndText(end) + WriteRows(rows[1..], end))
  }

  predicate Separator(c: char) {
    c == ',' || c == '\n' || c == '\r'
  }

  /** A cell may be written without quotes when nothing in it is read as syntax or trimmed. */
  predicate Plain(s: string) {
    Trimmed(s) && (s != "" ==> s[0] != '"') && forall c | c in s :: !Separator(c)
  }

  predicate Writable(row: seq<Cell>) {
    forall cell | cell in row :: cell.quoted || Plain(cell.value)
  }

  function Kept(rows: seq<seq<Cell>>): seq<seq<Cell>> {
    if rows == [] then []
    else (if Keeps(rows[0]) then [rows[0]] else []) + Kept(rows[1..])
  }

  // ---------------------------------------------------------------- the round trip

  predicate AtBoundary(s: string) {
    s == "" || Separator(s[0])
  }

  predicate FieldStart(st: State) {
    st.field == "" && !st.quoted && !st.wasQuoted
  }

  lemma {:induction false} ScanQuoted(value: string, rest: string, st: State)
    requires st.quoted && AtBoundary(rest)
    ensures Scan(DoubleQuotes(value) + ("\"" + rest), st) == Scan(rest, st.(field := st.field + value, quoted := false))
    decreases value
  {
    var tail := "\"" + rest;
    if value == "" {
      assert DoubleQuotes(value) + tail == tail && st.field + value == st.field;
      ScanClosing(rest, st);
    } else {
      DoubleQuotesStep(value, tail);
      ScanQuotedChar(value[0], DoubleQuotes(value[1..]) + tail, st);
      ScanQuoted(value[1..], rest, st.(field := st.field + [value[0]]));
      Shift(st.field, value);
    }
  }

  lemma ScanClosing(rest: string, st: State)
    requires st.quoted && AtBoundary(rest)
    ensures Scan("\"" + rest, st) == Scan(rest, st.(quoted := false))
  {
    assert ("\"" + rest)[1..] == rest;
  }

  lemma DoubleQuotesStep(value: string, tail: string)
    requires value != ""
    ensures DoubleQuotes(value) + tail
         == (if value[0] == '"' then "\"\"" else [value[0]]) + (DoubleQuotes(value[1..]) + tail)
  {
  }

  lemma ScanQuotedChar(c: char, more: string, st: State)
    requires st.quoted
    ensures Scan((if c == '"' then "\"\"" else [c]) + more, st) == Scan(more, st.(field := st.field + [c]))
  {
    assert ([c] + more)[1..] == more && ("\"\"" + more)[2..] == more;
    assert c == '"' ==> [c] == "\"";
  }

  lemma {:induction false} ScanPlain(value: string, rest: string, st: State)
    requires !st.quoted && (forall c | c in value :: !Separator(c))
    requires st.field == "" && value != "" ==> value[0] != '"'
    ensures Scan(value + rest, st) == Scan(rest, st.(field := st.field + value))
    decreases value
  {
    if value == "" {
      assert value + rest == rest && st.field + value == st.field;
    } else {
      var s := value + rest;
      assert s[0] == value[0] && value[0] in value && s[1..] == value[1..] + rest;
      ScanPlain(value[1..], rest, st.(field := st.field + [value[0]]));
      Shift(st.field, value);
    }
  }

  lemma ScanCell(cell: Cell, rest: string, st: State)
    requires FieldStart(st) && AtBoundary(rest)
    requires cell.quoted || Plain(cell.value)
    ensures Scan(WriteCell(cell) + rest, st) == Scan(rest, st.(field := cell.value, wasQuoted := cell.quoted))
  {
    if cell.quoted {
      var s := WriteCell(cell) + rest;
      assert s[0] == '"' && s[1..] == DoubleQuotes(cell.value) + ("\"" + rest);
      ScanQuoted(cell.value, rest, st.(quoted := true, wasQuoted := true));
      assert "" + cell.value == cell.value;
    } else {
      ScanPlain(cell.value, rest, st);
      assert "" + cell.value == cell.value;
    }
  }

  /** A cell read to its end is pushed as it was written. */
  lemma PushCell(cell: Cell, st: State)
    requires FieldStart(st) && (cell.quoted || Plain(cell.value))
    ensures PushField(st.(field := cell.value, wasQuoted := cell.quoted)) == st.(row := st.row + [cell])
  {
    if !cell.quoted { TrimmedStays(cell.value); }
  }

  /** The row as the parser sees it when it is pushed: an empty row has one empty cell. */
  function Seen(row: seq<Cell>): seq<Cell> {
    if row == [] then [Cell("", false)] else row
  }

  /** The state after the text of a row, when its last field is read and not pushed. */
  function AfterRow(row: seq<Cell>, st: State): State {
    if row == [] then st
    else
      var n := |row| - 1;
      st.(row := st.row + row[..n], field := row[n].value, wasQuoted := row[n].quoted)
  }

  lemma ScanCellComma(cell: Cell, rest: string, st: State)
    requires FieldStart(st) && (cell.quoted || Plain(cell.value))
    ensures Scan(WriteCell(cell) + ("," + rest), st) == Scan(rest, st.(row := st.row + [cell]))
  {
    var tail := "," + rest;
    ScanCell(cell, tail, st);
    PushCell(cell, st);
    assert tail[0] == ',' && tail[1..] == rest;
  }

  lemma {:induction false} ScanRow(row: seq<Cell>, rest: string, st: State)
    requires FieldStart(st) && Writable(row) && AtBoundary(rest)
    ensures Scan(WriteRow(row) + rest, st) == Scan(rest, AfterRow(row, st))
    decreases row
  {
    if row == [] {
      assert WriteRow(row) + rest == rest;
    } else if |row| == 1 {
      assert row[0] in row;
      ScanCell(row[0], rest, st);
      assert st.row + row[..0] == st.row;
    } else {
      assert row[0] in row;
      var more := WriteRow(row[1..]) + rest;
      RowFront(row, rest);
      ScanCellComma(row[0], more, st);
      var next := st.(row := st.row + [row[0]]);
      ScanRow(row[1..], rest, next);
      AfterRowStep(row, st);
    }
  }

  lemma RowFront(row: seq<Cell>, rest: string)
    requires |row| > 1
    ensures WriteRow(row) + rest == WriteCell(row[0]) + ("," + (WriteRow(row[1..]) + rest))
  {
    Regroup(WriteCell(row[0]), "," + WriteRow(row[1..]), rest);
    Regroup(",", WriteRow(row[1..]), rest);
  }

  lemma AfterRowStep(row: seq<Cell>, st: State)
    requires |row| > 1
    ensures AfterRow(row[1..], st.(row := st.row + [row[0]])) == AfterRow(row, st)
  {
    var n := |row| - 1;
    assert (st.row + [row[0]]) + row[1..][..n - 1] == st.row + row[..n];
  }

  lemma PushAfterRow(row: seq<Cell>, st: State)
    requires FieldStart(st) && st.row == [] && Writable(row)
    ensures !AfterRow(row, st).quoted
    ensures PushRow(PushField(AfterRow(row, st))) == st.(rows := st.rows + if Keeps(row) then [row] else [])
  {
    RowPushed(row, st);
    FieldAfterRow(row, st);
  }

  lemma FieldAfterRow(row: seq<Cell>, st: State)
    requires FieldStart(st) && st.row == [] && Writable(row)
    ensures !AfterRow(row, st).quoted
    ensures PushField(AfterRow(row, st)) == st.(row := st.row + Seen(row))
  {
  }

  lemma ScanLine(row: seq<Cell>, end: LineEnd, more: string, st: State)
    requires FieldStart(st) && st.row == [] && Writable(row)
    requires end == CR && more != "" ==> more[0] != '\n'
    ensures Scan(WriteRow(row) + (EndText(end) + more), st)
         == Scan(more, st.(rows := st.rows + if Keeps(row) then [row] else []))
  {
    var rest := EndText(end) + more;
    ScanRow(row, rest, st);
    PushAfterRow(row, st);
    assert rest[0] == EndText(end)[0] && rest[|EndText(end)|..] == more;
    assert |rest| > 1 ==> rest[1] == if end == CRLF then '\n' else more[0];
    assert Turn(rest, AfterRow(row, st)) == (|EndText(end)|, PushRow(PushField(AfterRow(row, st))));
  }

  /** The rows when the text ends in `st`. */
  function Finish(st: State): seq<seq<Cell>> {
    PushRow(PushField(st)).rows
  }

  ghost predicate AllWritable(rows: seq<seq<Cell>>) {
    forall row | row in rows :: Writable(row)
  }

  lemma ScanLastRow(row: seq<Cell>, st: State)
    requires FieldStart(st) && st.row == [] && Writable(row)
    ensures !Scan(WriteRow(row), st).quoted
    ensures Finish(Scan(WriteRow(row), st)) == st.rows + if Keeps(row) then [row] else []
  {
    ScanRow(row, "", st);
    assert WriteRow(row) + "" == WriteRow(row);
    PushAfterRow(row, st);
  }

  lemma {:induction false} ScanRows(rows: seq<seq<Cell>>, end: LineEnd, st: State)
    requires FieldStart(st) && st.row == [] && AllWritable(rows)
    ensures !Scan(WriteRows(rows, end), st).quoted
    ensures Finish(Scan(WriteRows(rows, end), st)) == st.rows + Kept(rows)
    decreases rows
  {
    if rows == [] {
      ScanLastRow([], st);
      assert Keeps([]) == false;
    } else if |rows| == 1 {
      assert rows[0] in rows;
      ScanLastRow(rows[0], st);
      KeptOne(rows);
    } else {
      assert rows[0] in rows && AllWritable(rows[1..]);
      ScanFirstRow(rows, end, st);
      var here := if Keeps(rows[0]) then [rows[0]] else [];
      ScanRows(rows[1..], end, st.(rows := st.rows + here));
      Regroup(st.rows, here, Kept(rows[1..]));
    }
  }

  lemma ScanFirstRow(rows: seq<seq<Cell>>, end: LineEnd, st: State)
    requires FieldStart(st) && st.row == [] && AllWritable(rows) && |rows| > 1
    ensures Scan(WriteRows(rows, end), st)
         == Scan(WriteRows(rows[1..], end), st.(rows := st.rows + if Keeps(rows[0]) then [rows[0]] else []))
  {
    assert rows[0] in rows;
    RowsStart(rows[1..], end);
    ScanLine(rows[0], end, WriteRows(rows[1..], end), st);
  }

  lemma KeptOne(rows: seq<seq<Cell>>)
    requires |rows| == 1
    ensures Kept(rows) == if Keeps(rows[0]) then [rows[0]] else []
  {
    assert Kept(rows[1..]) == [];
  }

  lemma RowPushed(row: seq<Cell>, st: State)
    requires st.row == []
    ensures PushRow(st.(row := st.row + Seen(row))) == st.(rows := st.rows + if Keeps(row) then [row] else [])
  {
    assert st.row + Seen(row) == Seen(row) && st.rows + [] == st.rows;
  }

  /** What follows a line end CR is not LF: with that end, no row is written with one. */
  lemma {:induction false} RowsStart(rows: seq<seq<Cell>>, end: LineEnd)
    requires forall row | row in rows :: Writable(row)
    ensures end == CR && WriteRows(rows, end) != "" ==> WriteRows(rows, end)[0] != '\n'
  {
    if rows != [] {
      assert rows[0] in rows;
      RowStart(rows[0]);
    }
  }

  lemma RowStart(row: seq<Cell>)
    requires Writable(row)
    ensures WriteRow(row) != "" ==> WriteRow(row)[0] != '\n'
  {
  }

  /** For every table, with any of its cells quoted and any line end, parsing what is written gives
      back its rows, with embedded commas, quotes and line breaks, except those that are empty or a
      single empty cell. */
  lemma {:induction false} ParseUndoesWrite(rows: seq<seq<Cell>>, end: LineEnd)
    requires forall row | row in rows :: Writable(row)
    ensures ParseRows(WriteRows(rows, end)) == Some(Kept(rows))
    ensures ParseRows(WriteRows(rows, end)) == Some(rows) <==> forall row | row in rows :: Keeps(row)
  {
    ScanRows(rows, end, START);
    assert [] + Kept(rows) == Kept(rows);
    KeptAll(rows);
  }

  lemma {:induction false} KeptAll(rows: seq<seq<Cell>>)
    ensures |Kept(rows)| <= |rows|
    ensures Kept(rows) == rows <==> forall row | row in rows :: Keeps(row)
  {
    if rows != [] {
      KeptAll(rows[1..]);
      assert rows == [rows[0]] + rows[1..];
      if Kept(rows) == rows { assert Kept(rows)[1..] == rows[1..]; }
    }
  }

  /** White space that is no line end. */
  predicate Padding(s: string) {
    AllSpaces(s) && forall c | c in s :: !Separator(c)
  }

  /** A cell without quotes is read without the white space around it. */
  lemma PaddedCellIsRead(a: string, value: string, b: string, rest: string, st: State)
    requires FieldStart(st) && AtBoundary(rest) && Padding(a) && Padding(b) && Plain(value) && value != ""
    ensures Scan((a + (value + b)) + rest, st) == Scan(rest, st.(field := a + (value + b)))
    ensures PushField(st.(field := a + (value + b))) == st.(row := st.row + [Cell(value, false)])
  {
    var text := a + (value + b);
    forall c | c in text ensures !Separator(c) { assert c in a || c in value || c in b; }
    if a != "" { assert a[0] in a && text[0] == a[0]; } else { assert text[0] == value[0]; }
    ScanPlain(text, rest, st);
    assert "" + text == text;
    TrimPadded(a, value, b);
  }

  /** So a padded cell alone is a row of its value. */
  lemma PaddedText(a: string, value: string, b: string)
    requires Padding(a) && Padding(b) && Plain(value) && value != ""
    ensures ParseRows(a + (value + b)) == Some([[Cell(value, false)]])
  {
    var text := a + (value + b);
    PaddedCellIsRead(a, value, b, "", START);
    assert text + "" == text && START.row + [Cell(value, false)] == [Cell(value, false)];
    assert START.rows + [[Cell(value, false)]] == [[Cell(value, false)]];
  }
}
