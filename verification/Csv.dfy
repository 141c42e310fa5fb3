/** The CSV printer of frontend/lib/csv-utils.ts against a reader for RFC 4180. */
module Csv {
  import opened Text

  /** A cell: null and undefined are missing; anything else has the text that String or
      JSON.stringify gives it. */
  datatype Value = Missing | Shown(text: string)

  type Row = seq<Value>

  // ---------------------------------------------------------------- printing

  predicate Risky(c: char) { JsSpace(c) || c == '=' || c == '+' || c == '-' || c == '@' }

  /** The text a reader is meant to get: with an apostrophe before a risky first character. */
  function Guarded(v: Value): string {
    match v
    case Missing => ""
    case Shown(s) => if s != "" && Risky(s[0]) then "'" + s else s
  }

  predicate Special(c: char) { c == '"' || c == ',' || c == '\r' || c == '\n' }

  predicate NeedsQuotes(s: string) { exists i | 0 <= i < |s| :: Special(s[i]) }

  lemma QuotesIff(s: string)
    ensures NeedsQuotes(s) <==> exists c :: c in s && c in {'"', ',', '\r', '\n'}
    ensures s != "" && s[0] == '"' ==> NeedsQuotes(s)
  {
    if NeedsQuotes(s) { var i :| 0 <= i < |s| && Special(s[i]); assert s[i] in s; }
    if c :| c in s && c in {'"', ',', '\r', '\n'} {
      var i :| 0 <= i < |s| && s[i] == c;
      assert Special(s[i]);
    }
  }

  function DoubleQuotes(s: string): string {
    if s == "" then "" else (if s[0] == '"' then "\"\"" else [s[0]]) + DoubleQuotes(s[1..])
  }

  function Escaped(v: Value): string {
    var s := Guarded(v);
    if NeedsQuotes(s) then "\"" + DoubleQuotes(s) + "\"" else s
  }

  /** The cell is quoted exactly when its guarded text needs it, and, in front of anything that
      ends a field, reads back as that text. */
  method EscapeCsvValue(value: Value) returns (r: string)
    ensures r != "" && r[0] == '"' <==> exists c :: c in Guarded(value) && c in {'"', ',', '\r', '\n'}
    ensures forall rest {:trigger ReadField(r + rest)} ::
      FieldEnd(rest) ==> ReadField(r + rest) == Some(Field(Guarded(value), rest))
    ensures r == Escaped(value)
  {
    QuotesIff(Guarded(value));
    forall rest | FieldEnd(rest) ensures ReadField(Escaped(value) + rest) == Some(Field(Guarded(value), rest)) {
      FieldBack(value, rest);
    }
    if value == Missing { return ""; }
    var str := value.text;
    if str != "" && Risky(str[0]) { str := "'" + str; }
    if NeedsQuotes(str) { return "\"" + DoubleQuotes(str) + "\""; }
    return str;
  }

  function Line(row: Row): string {
    Join(seq(|row|, i requires 0 <= i < |row| => Escaped(row[i])), ",")
  }

  function Lines(rows: seq<Row>): (r: seq<string>)
    ensures |r| == |rows| && forall i | 0 <= i < |rows| :: r[i] == Line(rows[i])
  {
    seq(|rows|, i requires 0 <= i < |rows| => Line(rows[i]))
  }

  /** The whole file: header and rows, one line each. */
  function Printed(table: seq<Row>): string { Join(Lines(table), "\r\n") }

  /** The cells of a row, each printed, with commas between. */
  method PrintRow(row: Row) returns (line: string)
    ensures line == Line(row)
  {
    hide Escaped;
    var cells := [];
    for i := 0 to |row|
      invariant |cells| == i && forall j | 0 <= j < i :: cells[j] == Escaped(row[j])
    {
      var cell := EscapeCsvValue(row[i]);
      cells := cells + [cell];
    }
    assert cells == seq(|row|, i requires 0 <= i < |row| => Escaped(row[i]));
    line := Join(cells, ",");
  }

  method RowsToCsv(header: seq<string>, rows: seq<Row>) returns (r: string)
    ensures r == Printed([HeaderRow(header)] + rows)
  {
    hide Line;
    ghost var table := [HeaderRow(header)] + rows;
    var line := PrintRow(HeaderRow(header));
    var lines := [line];
    var i := 0;
    while i < |rows|
      invariant 0 <= i <= |rows| && |lines| == i + 1
      invariant forall j | 0 <= j <= i :: lines[j] == Line(table[j])
    {
      line := PrintRow(rows[i]);
      lines := lines + [line];
      i := i + 1;
    }
    assert lines == Lines(table);
    r := Join(lines, "\r\n");
  }

  function HeaderRow(header: seq<string>): (r: Row)
    ensures |r| == |header| && forall i | 0 <= i < |header| :: r[i] == Shown(header[i])
  {
    seq(|header|, i requires 0 <= i < |header| => Shown(header[i]))
  }

  // ---------------------------------------------------------------- reading

  datatype Field = Field(text: string, rest: string)

  /** The inside of a quoted field, after its opening quote: section 2, rules 5 to 7. */
  function ReadQuoted(s: string): (r: Option<Field>)
    ensures r.Some? ==> |r.value.rest| < |s|
  {
    if s == "" then None
    else if s[0] == '"' then
      if |s| > 1 && s[1] == '"' then
        match ReadQuoted(s[2..]) case None => None case Some(f) => Some(Field("\"" + f.text, f.rest))
      else Some(Field("", s[1..]))
    else
      match ReadQuoted(s[1..]) case None => None case Some(f) => Some(Field([s[0]] + f.text, f.rest))
  }

  /** A field without quotes ends before the next special character. */
  function ReadPlain(s: string): (f: Field)
    ensures |f.rest| <= |s|
  {
    if s == "" || Special(s[0]) then Field("", s)
    else var f := ReadPlain(s[1..]); Field([s[0]] + f.text, f.rest)
  }

  function ReadField(s: string): (r: Option<Field>)
    ensures r.Some? ==> |r.value.rest| <= |s|
  {
    if s != "" && s[0] == '"' then ReadQuoted(s[1..]) else Some(ReadPlain(s))
  }

  /** All records from the start of a field on; the first one is the rest of its record. */
  function ReadRecords(s: string): (r: Option<seq<seq<string>>>)
    ensures r.Some? ==> r.value != [] && forall i | 0 <= i < |r.value| :: r.value[i] != []
    decreases |s|
  {
    match ReadField(s)
    case None => None
    case Some(f) =>
      if f.rest == "" then Some([[f.text]])
      else if f.rest[0] == ',' then
        match ReadRecords(f.rest[1..])
        case None => None
        case Some(t) => Some([[f.text] + t[0]] + t[1..])
      else if StartsWith(f.rest, "\r\n") then
        match ReadRecords(f.rest[2..])
        case None => None
        case Some(t) => Some([[f.text]] + t)
      else None
  }

  // ---------------------------------------------------------------- round trip

  /** What ends a field. */
  predicate FieldEnd(rest: string) { rest == "" || rest[0] == ',' || StartsWith(rest, "\r\n") }

  lemma {:induction false} QuotedBack(s: string, rest: string)
    requires rest == "" || rest[0] != '"'
    ensures ReadQuoted(DoubleQuotes(s) + "\"" + rest) == Some(Field(s, rest))
  {
    if s == "" {
      assert "" + "\"" + rest == "\"" + rest;
      assert ("\"" + rest)[1..] == rest;
    } else {
      QuotedBack(s[1..], rest);
      var head := if s[0] == '"' then "\"\"" else [s[0]];
      var after := DoubleQuotes(s[1..]) + "\"" + rest;
      assert DoubleQuotes(s) + "\"" + rest == head + after;
      assert (head + after)[|head|..] == after;
      assert s == [s[0]] + s[1..];
    }
  }

  lemma {:induction false} PlainBack(s: string, rest: string)
    requires !NeedsQuotes(s) && FieldEnd(rest)
    ensures ReadPlain(s + rest) == Field(s, rest)
  {
    if s == "" {
      assert "" + rest == rest;
    } else {
      assert !Special(s[0]);
      assert !NeedsQuotes(s[1..]) by {
        forall i | 0 <= i < |s| - 1 ensures !Special(s[1..][i]) { assert s[1..][i] == s[i + 1]; }
      }
      PlainBack(s[1..], rest);
      assert (s + rest)[1..] == s[1..] + rest;
      assert s == [s[0]] + s[1..];
    }
  }

  /** Every printed cell is read back as its guarded text. */
  lemma FieldBack(v: Value, rest: string)
    requires FieldEnd(rest)
    ensures ReadField(Escaped(v) + rest) == Some(Field(Guarded(v), rest))
  {
    hide Guarded, ReadQuoted, ReadPlain, NeedsQuotes, DoubleQuotes;
    var s := Guarded(v);
    if NeedsQuotes(s) {
      QuotedBack(s, rest);
      var inner := DoubleQuotes(s) + "\"" + rest;
      assert Escaped(v) + rest == "\"" + inner;
      assert ("\"" + inner)[1..] == inner;
    } else {
      PlainBack(s, rest);
      PlainStart(s, rest);
    }
  }

  lemma PlainStart(s: string, rest: string)
    requires !NeedsQuotes(s) && FieldEnd(rest)
    ensures s + rest == "" || (s + rest)[0] != '"'
  {
    if s != "" { assert !Special(s[0]); }
  }

  function GuardedRow(row: Row): (r: seq<string>)
    ensures |r| == |row| && forall i | 0 <= i < |row| :: r[i] == Guarded(row[i])
  {
    seq(|row|, i requires 0 <= i < |row| => Guarded(row[i]))
  }

  function GuardedTable(table: seq<Row>): (r: seq<seq<string>>)
    ensures |r| == |table| && forall i | 0 <= i < |table| :: r[i] == GuardedRow(table[i])
  {
    seq(|table|, i requires 0 <= i < |table| => GuardedRow(table[i]))
  }

  lemma LineStep(row: Row)
    requires |row| > 1
    ensures Line(row) == Escaped(row[0]) + "," + Line(row[1..])
  {
    var cells := seq(|row|, i requires 0 <= i < |row| => Escaped(row[i]));
    var more := row[1..];
    assert cells[1..] == seq(|more|, i requires 0 <= i < |more| => Escaped(more[i]));
  }

  lemma LineOne(v: Value)
    ensures Line([v]) == Escaped(v)
  {
  }

  /** One row, followed by the end or by further lines. */
  lemma {:induction false} RowBack(row: Row, rest: string, tail: seq<seq<string>>)
    requires row != []
    requires (rest == "" && tail == []) || (StartsWith(rest, "\r\n") && ReadRecords(rest[2..]) == Some(tail))
    ensures ReadRecords(Line(row) + rest) == Some([GuardedRow(row)] + tail)
  {
    hide Line, Escaped, Guarded, ReadField, ReadRecords;
    if |row| == 1 {
      LineOne(row[0]);
      assert row == [row[0]];
      FieldBack(row[0], rest);
      assert GuardedRow(row) == [Guarded(row[0])];
      ReadStep(Line(row) + rest, Guarded(row[0]), rest);
      if rest == "" { assert [GuardedRow(row)] + tail == [[Guarded(row[0])]]; }
    } else {
      LineStep(row);
      var more := row[1..];
      var after := "," + (Line(more) + rest);
      RowBack(more, rest, tail);
      LineAfter(row, rest);
      FieldBack(row[0], after);
      assert after[1..] == Line(more) + rest;
      ReadStep(Line(row) + rest, Guarded(row[0]), after);
      assert GuardedRow(row) == [Guarded(row[0])] + GuardedRow(more);
      assert ([GuardedRow(more)] + tail)[1..] == tail;
    }
  }

  lemma LineAfter(row: Row, rest: string)
    requires |row| > 1
    ensures Line(row) + rest == Escaped(row[0]) + ("," + (Line(row[1..]) + rest))
  {
    hide Line, Escaped;
    LineStep(row);
    var a, b := Escaped(row[0]), Line(row[1..]);
    Assoc(a + ",", b, rest);
    Assoc(a, ",", b + rest);
  }

  lemma ReadStep(s: string, text: string, rest: string)
    requires ReadField(s) == Some(Field(text, rest)) && FieldEnd(rest)
    ensures rest == "" ==> ReadRecords(s) == Some([[text]])
    ensures rest != "" && rest[0] == ',' && ReadRecords(rest[1..]).Some? ==>
      var t := ReadRecords(rest[1..]).value; ReadRecords(s) == Some([[text] + t[0]] + t[1..])
    ensures StartsWith(rest, "\r\n") && ReadRecords(rest[2..]).Some? ==>
      ReadRecords(s) == Some([[text]] + ReadRecords(rest[2..]).value)
  {
    hide ReadField;
  }

  lemma PrintedStep(table: seq<Row>)
    requires |table| > 1
    ensures Printed(table) == Line(table[0]) + "\r\n" + Printed(table[1..])
  {
    assert Lines(table)[1..] == Lines(table[1..]);
  }

  lemma {:induction false} TableBack(table: seq<Row>)
    requires table != [] && forall i | 0 <= i < |table| :: table[i] != []
    ensures ReadRecords(Printed(table)) == Some(GuardedTable(table))
  {
    hide Line, ReadRecords, GuardedRow;
    if |table| == 1 {
      RowBack(table[0], "", []);
      assert Line(table[0]) + "" == Line(table[0]);
      assert GuardedTable(table) == [GuardedRow(table[0])] + [];
    } else {
      PrintedStep(table);
      var more := table[1..];
      TableBack(more);
      var rest := "\r\n" + Printed(more);
      assert rest[2..] == Printed(more);
      RowBack(table[0], rest, GuardedTable(more));
      assert Line(table[0]) + rest == Printed(table);
      assert GuardedTable(table) == [GuardedRow(table[0])] + GuardedTable(more);
    }
  }

  /** A printed table is read back as exactly the table of guarded cells, row by row, if and
      only if every row has a cell: a row without cells comes back as one empty cell. */
  lemma RoundTripIff(table: seq<Row>)
    requires table != []
    ensures ReadRecords(Printed(table)) == Some(GuardedTable(table))
      <==> forall i | 0 <= i < |table| :: table[i] != []
  {
    hide Printed, GuardedRow;
    if forall i | 0 <= i < |table| :: table[i] != [] {
      TableBack(table);
    } else {
      var i :| 0 <= i < |table| && table[i] == [];
      assert GuardedTable(table)[i] == GuardedRow([]);
      assert |GuardedRow([])| == 0;
    }
  }

  /** The standard lets a file end with a line break after its last record.  A reader that
      takes it so drops an empty last record. */
  function ReadFile(s: string): Option<seq<seq<string>>> {
    match ReadRecords(s)
    case None => None
    case Some(t) => if |t| > 1 && t[|t| - 1] == [""] then Some(t[..|t| - 1]) else Some(t)
  }

  /** For such a reader the round trip holds unless the last row is one empty cell. */
  lemma RoundTripWithFinalBreakIff(table: seq<Row>)
    requires table != [] && forall i | 0 <= i < |table| :: table[i] != []
    ensures ReadFile(Printed(table)) == Some(GuardedTable(table))
      <==> |table| == 1 || !(|table[|table| - 1]| == 1 && Guarded(table[|table| - 1][0]) == "")
  {
    hide Printed, ReadRecords, Guarded;
    TableBack(table);
    var last := table[|table| - 1];
    assert GuardedTable(table)[|table| - 1] == GuardedRow(last);
    if |last| == 1 { assert GuardedRow(last) == [Guarded(last[0])]; }
  }

  // ---------------------------------------------------------------- log export

  /** The fields of one exported log entry.  `shown` is what formatTimestamp makes of the
      timestamp, `details` what JSON.stringify makes of the metadata. */
  datatype LogRow = LogRow(id: Value, shown: string, action: Value, targetType: Value, targetId: Value,
                           ipAddress: Value, isRead: bool, details: Option<Value>)

  function OrEmpty(v: Value): Value { if v == Missing then Shown("") else v }

  const LOG_HEADER: seq<string> :=
    ["id", "timestamp", "action", "targetType", "targetId", "ipAddress", "isRead", "metadata"]

  function LogCells(log: LogRow): (r: Row)
    ensures |r| == 8
  {
    [OrEmpty(log.id), Shown(log.shown), OrEmpty(log.action), OrEmpty(log.targetType), OrEmpty(log.targetId),
     OrEmpty(log.ipAddress), Shown(if log.isRead then "true" else "false"),
     if log.details.Some? then log.details.value else Shown("")]
  }

  function LogRows(logs: seq<LogRow>): (r: seq<Row>)
    ensures |r| == |logs| && forall i | 0 <= i < |logs| :: r[i] == LogCells(logs[i])
  {
    seq(|logs|, i requires 0 <= i < |logs| => LogCells(logs[i]))
  }

  method LogsToCsv(logs: seq<LogRow>) returns (r: string)
    ensures r == Printed([HeaderRow(LOG_HEADER)] + LogRows(logs))
  {
    r := RowsToCsv(LOG_HEADER, LogRows(logs));
  }

  /** Every exported log reads back with eight fields a row: the header as it is, and one row
      for each log entry with the guarded texts of its fields. */
  lemma LogsReadBack(logs: seq<LogRow>)
    ensures var t := ReadRecords(Printed([HeaderRow(LOG_HEADER)] + LogRows(logs)));
      && t.Some? && |t.value| == |logs| + 1 && t.value[0] == LOG_HEADER
      && forall i | 0 <= i < |logs| :: |t.value[i + 1]| == 8 && t.value[i + 1] == GuardedRow(LogCells(logs[i]))
  {
    hide Printed, ReadRecords, LogCells;
    var table := [HeaderRow(LOG_HEADER)] + LogRows(logs);
    assert |LOG_HEADER| == 8;
    TableBack(table);
    HeaderUnguarded();
  }

  lemma HeaderUnguarded()
    ensures GuardedRow(HeaderRow(LOG_HEADER)) == LOG_HEADER
  {
    var row := HeaderRow(LOG_HEADER);
    forall i | 0 <= i < 8 ensures Guarded(row[i]) == LOG_HEADER[i] {
      assert LOG_HEADER[i] != "" && !Risky(LOG_HEADER[i][0]);
    }
  }

  /** Which texts get an apostrophe: those that start with white space or one of four signs. */
  lemma GuardedIs(text: string)
    ensures Guarded(Missing) == ""
    ensures Guarded(Shown(text)) ==
      if text != "" && (JsSpace(text[0]) || text[0] in {'=', '+', '-', '@'}) then "'" + text else text
  {
  }

  /** The eight fields of a log row, in their order. */
  lemma LogRowIs(log: LogRow)
    ensures GuardedRow(LogCells(log)) == [
      Guarded(log.id), Guarded(Shown(log.shown)), Guarded(log.action), Guarded(log.targetType),
      Guarded(log.targetId), Guarded(log.ipAddress), if log.isRead then "true" else "false",
      if log.details.None? then "" else Guarded(log.details.value)]
  {
    hide Guarded, LogCells;
    var cells, r := LogCells(log), GuardedRow(LogCells(log));
    CellsAre(log);
    assert r == [r[0], r[1], r[2], r[3], r[4], r[5], r[6], r[7]];
  }

  lemma CellsAre(log: LogRow)
    ensures var cells := LogCells(log);
      && Guarded(cells[0]) == Guarded(log.id) && cells[1] == Shown(log.shown)
      && Guarded(cells[2]) == Guarded(log.action) && Guarded(cells[3]) == Guarded(log.targetType)
      && Guarded(cells[4]) == Guarded(log.targetId) && Guarded(cells[5]) == Guarded(log.ipAddress)
      && Guarded(cells[6]) == (if log.isRead then "true" else "false")
      && Guarded(cells[7]) == (if log.details.None? then "" else Guarded(log.details.value))
  {
    hide JsSpace;
    assert !Risky('t') && !Risky('f') by { assert !JsSpace('t') && !JsSpace('f') by { NoSpace(); } }
  }

  lemma NoSpace()
    ensures !JsSpace('t') && !JsSpace('f')
  {
  }
}
