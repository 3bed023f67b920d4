/**
 The CSV export of a table, and a reader after RFC 4180, section 2: records
 separated by CRLF with an optional one at the end, fields separated by commas,
 a field either quoted (a quote inside it doubled) or free of quotes, commas,
 carriage returns and line feeds.
 */
module Csv {
  import opened Wrappers

  const QUOTE := '"'
  const COMMA := ','
  const CR := '\r'
  const LF := '\n'

  type Row = seq<string>
  type Table = seq<Row>

  // ---------- the printer ----------

  function Doubled(cell: string): string {
    if cell == "" then "" else (if cell[0] == QUOTE then [QUOTE, QUOTE] else [cell[0]]) + Doubled(cell[1..])
  }

  function Join(parts: seq<string>, separator: string): string {
    if parts == [] then "" else if |parts| == 1 then parts[0] else parts[0] + separator + Join(parts[1..], separator)
  }

  function Quoted(cell: string): string { [QUOTE] + Doubled(cell) + [QUOTE] }

  function Map<A, B>(f: A -> B, s: seq<A>): seq<B> {
    if s == [] then [] else [f(s[0])] + Map(f, s[1..])
  }

  function PrintRow(row: Row): string { Join(Map(Quoted, row), ",") }

  function TableToCsv(rows: Table): string { Join(Map(PrintRow, rows), "\r\n") }

  // ---------- the reader ----------

  /** Where the reader stands: what it has read and the text that is left. */
  datatype Read<+T> = Bad | Good(value: T, rest: string)

  /** The inside of a quoted field, up to and including its closing quote. */
  function ReadQuoted(t: string): (r: Read<string>)
    ensures r.Good? ==> |r.rest| < |t|
    decreases |t|
  {
    if t == "" then Bad
    else if t[0] != QUOTE then Push(t[0], ReadQuoted(t[1..]))
    else if |t| > 1 && t[1] == QUOTE then Push(QUOTE, ReadQuoted(t[2..]))
    else Good("", t[1..])
  }

  function Push(c: char, r: Read<string>): Read<string> {
    if r.Bad? then Bad else Good([c] + r.value, r.rest)
  }

  function ReadPlain(t: string): (r: Read<string>)
    ensures r.Good? ==> |r.rest| <= |t|
    decreases |t|
  {
    if t == "" || t[0] in [COMMA, CR, LF] then Good("", t)
    else if t[0] == QUOTE then Bad
    else Push(t[0], ReadPlain(t[1..]))
  }

  function ReadField(t: string): (r: Read<string>)
    ensures r.Good? ==> |r.rest| <= |t|
  {
    if t != "" && t[0] == QUOTE then ReadQuoted(t[1..]) else ReadPlain(t)
  }

  /** One record, which has at least one field. */
  function ReadRecord(t: string): (r: Read<Row>)
    ensures r.Good? ==> |r.rest| <= |t| && r.value != []
    decreases |t|
  {
    var field := ReadField(t);
    if field.Bad? then Bad
    else if field.rest != "" && field.rest[0] == COMMA then
      var more := ReadRecord(field.rest[1..]);
      if more.Bad? then Bad else Good([field.value] + more.value, more.rest)
    else Good([field.value], field.rest)
  }

  predicate StartsWithCrLf(t: string) { |t| >= 2 && t[0] == CR && t[1] == LF }

  /** All records; no text is no record. */
  function ReadTable(t: string): (r: Option<Table>)
    ensures r.Some? ==> forall row | row in r.value :: row != []
    decreases |t|
  {
    if t == "" then Some([]) else
    var record := ReadRecord(t);
    if record.Bad? then None
    else if record.rest == "" then Some([record.value])
    else if !StartsWithCrLf(record.rest) then None
    else
      var more := ReadTable(record.rest[2..]);
      if more.None? then None else Some([record.value] + more.value)
  }

  // ---------- the round trip ----------

  /** What may follow a quoted field: anything but a quote. */
  predicate EndsField(rest: string) { rest == "" || rest[0] != QUOTE }

  lemma {:induction false} QuotedComesBack(cell: string, rest: string)
    requires EndsField(rest)
    ensures ReadQuoted(Doubled(cell) + ([QUOTE] + rest)) == Good(cell, rest)
  {
    var t := Doubled(cell) + ([QUOTE] + rest);
    if cell == "" {
      assert t == [QUOTE] + rest;
      assert t[1..] == rest;
    } else {
      QuotedComesBack(cell[1..], rest);
      var tail := Doubled(cell[1..]) + ([QUOTE] + rest);
      assert t == (if cell[0] == QUOTE then [QUOTE, QUOTE] else [cell[0]]) + tail;
      assert if cell[0] == QUOTE then t[2..] == tail else t[1..] == tail;
      assert [cell[0]] + cell[1..] == cell;
    }
  }

  lemma FieldComesBack(cell: string, rest: string)
    requires EndsField(rest)
    ensures ReadField(Quoted(cell) + rest) == Good(cell, rest)
  {
    var t := Quoted(cell) + rest;
    assert t[1..] == Doubled(cell) + ([QUOTE] + rest);
    QuotedComesBack(cell, rest);
  }

  lemma JoinFirst<A>(f: A -> string, s: seq<A>, separator: string)
    requires s != []
    ensures Join(Map(f, s), separator) == f(s[0]) + if |s| == 1 then "" else separator + Join(Map(f, s[1..]), separator)
  {
    var parts := Map(f, s);
    MapLength(f, s);
    assert parts[1..] == Map(f, s[1..]);
    assert |s| == 1 ==> parts[0] + "" == parts[0];
  }

  lemma {:induction false} MapLength<A, B>(f: A -> B, s: seq<A>)
    ensures |Map(f, s)| == |s|
  {
    if s != [] { MapLength(f, s[1..]); }
  }

  lemma LastFieldRead(cell: string, rest: string)
    requires rest == "" || StartsWithCrLf(rest)
    ensures ReadRecord(Quoted(cell) + rest) == Good([cell], rest)
  {
    FieldComesBack(cell, rest);
  }

  lemma MoreFieldsRead(cell: string, tail: string, more: Row, rest: string)
    requires ReadRecord(tail) == Good(more, rest)
    ensures ReadRecord(Quoted(cell) + ("," + tail)) == Good([cell] + more, rest)
  {
    FieldComesBack(cell, "," + tail);
    assert ("," + tail)[1..] == tail;
  }

  lemma PrintRowFirst(row: Row)
    requires row != []
    ensures PrintRow(row) == Quoted(row[0]) + if |row| == 1 then "" else "," + PrintRow(row[1..])
  {
    JoinFirst(Quoted, row, ",");
  }

  lemma Regroup(a: string, b: string, c: string)
    ensures (a + ("," + b)) + c == a + ("," + (b + c))
    ensures (a + "") + c == a + c
  {
  }

  lemma {:induction false} RecordComesBack(row: Row, rest: string)
    requires row != [] && (rest == "" || StartsWithCrLf(rest))
    ensures ReadRecord(PrintRow(row) + rest) == Good(row, rest)
  {
    PrintRowFirst(row);
    assert row == [row[0]] + row[1..];
    if |row| == 1 {
      Regroup(Quoted(row[0]), "", rest);
      LastFieldRead(row[0], rest);
      assert row == [row[0]];
    } else {
      RecordComesBack(row[1..], rest);
      Regroup(Quoted(row[0]), PrintRow(row[1..]), rest);
      MoreFieldsRead(row[0], PrintRow(row[1..]) + rest, row[1..], rest);
    }
  }

  lemma PrintedRowNotEmpty(row: Row)
    requires row != []
    ensures PrintRow(row) != ""
  {
    JoinFirst(Quoted, row, ",");
  }

  lemma ReadNext(first: Row, rest: string, others: Table)
    requires first != [] && (rest == "" || StartsWithCrLf(rest))
    requires if rest == "" then others == [] else ReadTable(rest[2..]) == Some(others)
    ensures ReadTable(PrintRow(first) + rest) == Some([first] + others)
  {
    PrintedRowNotEmpty(first);
    RecordComesBack(first, rest);
    assert PrintRow(first) + rest != "";
    if rest == "" { assert [first] + others == [first]; }
  }

  lemma {:induction false} TableComesBack(rows: Table)
    requires forall row | row in rows :: row != []
    ensures ReadTable(TableToCsv(rows)) == Some(rows)
  {
    if rows != [] {
      var first, others := rows[0], rows[1..];
      assert first in rows && forall row | row in others :: row in rows;
      TableComesBack(others);
      JoinFirst(PrintRow, rows, "\r\n");
      var rest := if others == [] then "" else "\r\n" + TableToCsv(others);
      assert others != [] ==> rest[2..] == TableToCsv(others);
      ReadNext(first, rest, others);
      assert [first] + others == rows;
    }
  }

  /** Reading back gives the table exactly when every row has a cell. */
  lemma ComesBackExactly(rows: Table)
    ensures ReadTable(TableToCsv(rows)) == Some(rows) <==> forall row | row in rows :: row != []
  {
    if forall row | row in rows :: row != [] { TableComesBack(rows); }
  }

  /** So different tables of that kind print differently. */
  lemma PrinterInjective(a: Table, b: Table)
    requires forall row | row in a :: row != []
    requires forall row | row in b :: row != []
    requires TableToCsv(a) == TableToCsv(b)
    ensures a == b
  {
    TableComesBack(a);
    TableComesBack(b);
  }

  /** A row without cells is lost: it prints like no row at all. */
  lemma EmptyRowIsLost()
    ensures TableToCsv([[]]) == TableToCsv([])
  {
    assert Map(PrintRow, [[]]) == [PrintRow([])];
  }
}
