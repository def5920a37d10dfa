/** `toCSV`: every field quoted, embedded quotes doubled, fields joined with
    `,` and records with a bare LF. This is the quoting of rules 5 to 7 of
    section 2 of RFC 4180, with LF in place of CRLF. Beside the writer, a
    reader for exactly this dialect, so that the writer can be shown to lose
    nothing. */
module Csv {
  import opened Text

  /** A quoted field read back: its content and the text after its closing
      quote. */
  datatype Field = Field(content: string, rest: string)

  /** A record read back: its fields and the text after its last field. */
  datatype Record = Record(cells: seq<string>, rest: string)

  /** `cell.replace(/"/g, '""')`. */
  function Escape(cell: string): (r: string)
    ensures |r| >= |cell|
  {
    if cell == [] then []
    else (if cell[0] == '"' then "\"\"" else [cell[0]]) + Escape(cell[1..])
  }

  /** `'"' + cell.replace(/"/g, '""') + '"'`. */
  function QuoteCell(cell: string): string {
    "\"" + Escape(cell) + "\""
  }

  function QuoteAll(row: seq<string>): (r: seq<string>)
    ensures |r| == |row|
  {
    if row == [] then [] else [QuoteCell(row[0])] + QuoteAll(row[1..])
  }

  /** One record: its quoted cells joined with commas. */
  function RowText(row: seq<string>): string {
    Join(QuoteAll(row), ",")
  }

  function RowTexts(rows: seq<seq<string>>): (r: seq<string>)
    ensures |r| == |rows|
  {
    if rows == [] then [] else [RowText(rows[0])] + RowTexts(rows[1..])
  }

  /** `toCSV(rows)`. */
  function ToCsv(rows: seq<seq<string>>): string {
    Join(RowTexts(rows), "\n")
  }

  /** Turns every doubled quote back into a single one, left to right. */
  function Collapse(s: string): string {
    if |s| >= 2 && s[0] == '"' && s[1] == '"' then "\"" + Collapse(s[2..])
    else if s == [] then []
    else [s[0]] + Collapse(s[1..])
  }

  /** Stripping the outer quotes of a quoted cell and collapsing each doubled
      quote gives the cell back. */
  lemma {:induction false} CellRoundTrip(cell: string)
    ensures var q := QuoteCell(cell);
      && |q| >= 2 && q[0] == '"' && q[|q| - 1] == '"'
      && Collapse(q[1..|q| - 1]) == cell
  {
    var q := QuoteCell(cell);
    assert q[1..|q| - 1] == Escape(cell);
    CollapseEscape(cell);
  }

  /** A cell without quotes is written between quotes as it is. */
  lemma {:induction false} EscapeNoQuote(cell: string)
    requires forall k :: 0 <= k < |cell| ==> cell[k] != '"'
    ensures Escape(cell) == cell
  {
    if cell != [] {
      EscapeNoQuote(cell[1..]);
      assert cell == [cell[0]] + cell[1..];
    }
  }

  lemma {:induction false} CollapseEscape(cell: string)
    ensures Collapse(Escape(cell)) == cell
  {
    if cell != [] {
      CollapseEscape(cell[1..]);
      var e := Escape(cell[1..]);
      if cell[0] == '"' {
        assert ("\"\"" + e)[2..] == e;
      } else {
        assert ([cell[0]] + e)[1..] == e;
      }
    }
  }

  /** Reads the content of a quoted field whose opening quote has already
      been consumed: a doubled quote stands for one quote, a single quote
      ends the field. `None` when the closing quote is missing. */
  function ReadQuoted(s: string): (r: Option<Field>)
    ensures r.Some? ==> |r.value.rest| < |s|
  {
    if s == [] then None
    else if s[0] == '"' then
      if |s| >= 2 && s[1] == '"' then
        match ReadQuoted(s[2..])
        case None => None
        case Some(f) => Some(Field("\"" + f.content, f.rest))
      else Some(Field([], s[1..]))
    else
      match ReadQuoted(s[1..])
      case None => None
      case Some(f) => Some(Field([s[0]] + f.content, f.rest))
  }

  /** Reads the quoted fields of one record, stopping before a record
      separator or at the end of the text. */
  function ReadCells(s: string): (r: Option<Record>)
    ensures r.Some? ==> |r.value.rest| < |s|
    decreases |s|
  {
    if s == [] || s[0] != '"' then None
    else
      match ReadQuoted(s[1..])
      case None => None
      case Some(f) =>
        if f.rest == [] then Some(Record([f.content], []))
        else if f.rest[0] == '\n' then Some(Record([f.content], f.rest))
        else if f.rest[0] == ',' then
          match ReadCells(f.rest[1..])
          case None => None
          case Some(rec) => Some(Record([f.content] + rec.cells, rec.rest))
        else None
  }

  /** Reads a non-empty sequence of records separated by LF. */
  function ReadRows(s: string): Option<seq<seq<string>>>
    decreases |s|
  {
    match ReadCells(s)
    case None => None
    case Some(rec) =>
      if rec.rest == [] then Some([rec.cells])
      else
        match ReadRows(rec.rest[1..])
        case None => None
        case Some(rows) => Some([rec.cells] + rows)
  }

  /** Reads a whole document in the dialect `toCSV` writes. */
  function ParseCsv(s: string): Option<seq<seq<string>>> {
    if s == [] then Some([]) else ReadRows(s)
  }

  /** A doubled quote inside a quoted field reads as one quote. */
  lemma ReadQuotedDoubled(t: string)
    ensures ReadQuoted("\"\"" + t)
         == match ReadQuoted(t)
            case None => None
            case Some(f) => Some(Field("\"" + f.content, f.rest))
  {
    assert ("\"\"" + t)[2..] == t;
  }

  /** Any other character inside a quoted field reads as itself. */
  lemma ReadQuotedPlain(c: char, t: string)
    requires c != '"'
    ensures ReadQuoted([c] + t)
         == match ReadQuoted(t)
            case None => None
            case Some(f) => Some(Field([c] + f.content, f.rest))
  {
    assert ([c] + t)[1..] == t;
  }

  lemma EscapeStep(cell: string, rest: string)
    requires cell != []
    ensures Escape(cell) + "\"" + rest
         == (if cell[0] == '"' then "\"\"" else [cell[0]]) + (Escape(cell[1..]) + "\"" + rest)
  {
  }

  lemma {:induction false} ReadQuotedEscape(cell: string, rest: string)
    requires rest == [] || rest[0] != '"'
    ensures ReadQuoted(Escape(cell) + "\"" + rest) == Some(Field(cell, rest))
  {
    if cell == [] {
      var s := Escape(cell) + "\"" + rest;
      assert s == "\"" + rest;
      assert s[1..] == rest;
    } else {
      ReadQuotedEscape(cell[1..], rest);
      var t := Escape(cell[1..]) + "\"" + rest;
      EscapeStep(cell, rest);
      if cell[0] == '"' {
        ReadQuotedDoubled(t);
        assert "\"" + cell[1..] == cell;
      } else {
        ReadQuotedPlain(cell[0], t);
        assert [cell[0]] + cell[1..] == cell;
      }
    }
  }

  lemma ReadCellsLast(cell: string, rest: string)
    requires rest == [] || rest[0] == '\n'
    ensures ReadCells(QuoteCell(cell) + rest) == Some(Record([cell], rest))
  {
    var s := QuoteCell(cell) + rest;
    assert s[0] == '"';
    assert s[1..] == Escape(cell) + "\"" + rest;
    ReadQuotedEscape(cell, rest);
  }

  lemma ReadCellsMore(cell: string, tail: string)
    ensures ReadCells(QuoteCell(cell) + "," + tail)
         == match ReadCells(tail)
            case None => None
            case Some(rec) => Some(Record([cell] + rec.cells, rec.rest))
  {
    var s := QuoteCell(cell) + "," + tail;
    var after := "," + tail;
    assert s[0] == '"';
    assert s[1..] == Escape(cell) + "\"" + after;
    ReadQuotedEscape(cell, after);
    assert after[1..] == tail;
  }

  lemma RowTextCons(row: seq<string>)
    requires |row| >= 2
    ensures RowText(row) == QuoteCell(row[0]) + "," + RowText(row[1..])
  {
    assert QuoteAll(row)[1..] == QuoteAll(row[1..]);
  }

  /** Reading a record of one cell. */
  lemma ReadCellsSingle(row: seq<string>, rest: string)
    requires |row| == 1
    requires rest == [] || rest[0] == '\n'
    ensures ReadCells(RowText(row) + rest) == Some(Record(row, rest))
  {
    assert RowText(row) == QuoteCell(row[0]);
    ReadCellsLast(row[0], rest);
    assert row == [row[0]];
  }

  /** Reading a record of several cells reads the first and then the rest. */
  lemma ReadCellsCons(row: seq<string>, rest: string)
    requires |row| >= 2
    ensures ReadCells(RowText(row) + rest)
         == match ReadCells(RowText(row[1..]) + rest)
            case None => None
            case Some(rec) => Some(Record([row[0]] + rec.cells, rec.rest))
  {
    var tail := RowText(row[1..]);
    RowTextCons(row);
    assert RowText(row) + rest == QuoteCell(row[0]) + "," + (tail + rest);
    ReadCellsMore(row[0], tail + rest);
  }

  lemma {:induction false} ReadCellsRow(row: seq<string>, rest: string)
    requires row != []
    requires rest == [] || rest[0] == '\n'
    ensures ReadCells(RowText(row) + rest) == Some(Record(row, rest))
  {
    if |row| == 1 {
      ReadCellsSingle(row, rest);
    } else {
      ReadCellsCons(row, rest);
      ReadCellsRow(row[1..], rest);
      assert [row[0]] + row[1..] == row;
    }
  }

  lemma ToCsvCons(rows: seq<seq<string>>)
    requires |rows| >= 2
    ensures ToCsv(rows) == RowText(rows[0]) + "\n" + ToCsv(rows[1..])
  {
    assert RowTexts(rows)[1..] == RowTexts(rows[1..]);
  }

  /** The last record of a document. */
  lemma ReadRowsSingle(row: seq<string>)
    requires row != []
    ensures ReadRows(RowText(row)) == Some([row])
  {
    ReadCellsRow(row, []);
    assert RowText(row) + [] == RowText(row);
  }

  /** A record followed by a line feed and more text: the record, then the
      records read from the rest. */
  lemma ReadRowsCons(row: seq<string>, tail: string)
    requires row != []
    ensures ReadRows(RowText(row) + "\n" + tail)
         == match ReadRows(tail)
            case None => None
            case Some(rows) => Some([row] + rows)
  {
    ReadCellsRow(row, "\n" + tail);
    assert RowText(row) + ("\n" + tail) == RowText(row) + "\n" + tail;
    assert ("\n" + tail)[1..] == tail;
  }

  lemma ReadRowsStep(rows: seq<seq<string>>)
    requires |rows| >= 2 && rows[0] != []
    requires ReadRows(ToCsv(rows[1..])) == Some(rows[1..])
    ensures ReadRows(ToCsv(rows)) == Some(rows)
  {
    ToCsvCons(rows);
    ReadRowsCons(rows[0], ToCsv(rows[1..]));
    assert [rows[0]] + rows[1..] == rows;
  }

  lemma {:induction false} ReadRowsRoundTrip(rows: seq<seq<string>>)
    requires rows != []
    requires forall k :: 0 <= k < |rows| ==> rows[k] != []
    ensures ReadRows(ToCsv(rows)) == Some(rows)
  {
    if |rows| == 1 {
      assert ToCsv(rows) == RowText(rows[0]);
      ReadRowsSingle(rows[0]);
      assert rows == [rows[0]];
    } else {
      ReadRowsRoundTrip(rows[1..]);
      ReadRowsStep(rows);
    }
  }

  /** Reading back what `toCSV` wrote gives the rows it was given, as long as
      no row is empty (an empty row writes nothing, so `[]` and `[[]]` are
      both written as the empty document). */
  lemma CsvRoundTrip(rows: seq<seq<string>>)
    requires forall k :: 0 <= k < |rows| ==> rows[k] != []
    ensures ParseCsv(ToCsv(rows)) == Some(rows)
  {
    if rows != [] {
      var t := ToCsv(rows);
      ReadRowsRoundTrip(rows);
      assert |RowText(rows[0])| > 0 by {
        assert QuoteAll(rows[0])[0] == QuoteCell(rows[0][0]);
        JoinFirst(QuoteAll(rows[0]), ",");
      }
      JoinFirst(RowTexts(rows), "\n");
    }
  }

  /** A join starts with its first element. */
  lemma JoinFirst(xs: seq<string>, sep: string)
    requires xs != []
    ensures xs[0] <= Join(xs, sep)
  {
  }
}
