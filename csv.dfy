/**
 * Comma-separated text as the export writes it, and a reader for it that
 * reads every field section 2 of RFC 4180 allows (with a line feed as the
 * record separator, which is what the export emits) and is lenient elsewhere:
 * a quote inside an unquoted field, text after a closing quote and an
 * unclosed quoted field are accepted rather than refused. The reader is the
 * independent partner of the writer: reading back what was written gives the
 * original cell values.
 */
module Csv {

  /** A cell of a row: written as it is, or wrapped in double quotes with inner quotes doubled. */
  datatype Cell = Plain(text: string) | Quoted(text: string)

  /** Text that can stand in a row unquoted without changing how the row reads back. */
  predicate PlainSafe(t: string) {
    forall i | 0 <= i < |t| :: t[i] != ',' && t[i] != '"' && t[i] != '\n'
  }

  predicate WellFormedCell(c: Cell) {
    c.Plain? ==> PlainSafe(c.text)
  }

  predicate WellFormedRows(rows: seq<seq<Cell>>) {
    forall i | 0 <= i < |rows| ::
      |rows[i]| >= 1 && forall j | 0 <= j < |rows[i]| :: WellFormedCell(rows[i][j])
  }

  // ---------------------------------------------------------------- writing

  /** Every double quote doubled, as `text.replace(/"/g, '""')` does. */
  function Escape(t: string): string {
    if t == [] then []
    else (if t[0] == '"' then "\"\"" else [t[0]]) + Escape(t[1..])
  }

  /** Each pair of double quotes collapsed back to one. */
  function Unescape(e: string): string {
    if e == [] then []
    else if |e| >= 2 && e[0] == '"' && e[1] == '"' then "\"" + Unescape(e[2..])
    else [e[0]] + Unescape(e[1..])
  }

  function Render(c: Cell): string {
    match c
    case Plain(t) => t
    case Quoted(t) => "\"" + Escape(t) + "\""
  }

  /** `parts.join(sep)`: the parts with one separator between neighbours. */
  function Join(parts: seq<string>, sep: char): string {
    if |parts| == 0 then ""
    else if |parts| == 1 then parts[0]
    else parts[0] + [sep] + Join(parts[1..], sep)
  }

  function Rendered(row: seq<Cell>): seq<string> {
    seq(|row|, i requires 0 <= i < |row| => Render(row[i]))
  }

  /** `row.join(',')` over the rendered cells. */
  function RenderRow(row: seq<Cell>): string {
    Join(Rendered(row), ',')
  }

  function RenderedRows(rows: seq<seq<Cell>>): seq<string> {
    seq(|rows|, i requires 0 <= i < |rows| => RenderRow(rows[i]))
  }

  /** The rows joined with line feeds. */
  function Write(rows: seq<seq<Cell>>): string {
    Join(RenderedRows(rows), '\n')
  }

  /** The values a row stands for. */
  function Texts(row: seq<Cell>): seq<string> {
    seq(|row|, i requires 0 <= i < |row| => row[i].text)
  }

  function Values(rows: seq<seq<Cell>>): seq<seq<string>> {
    seq(|rows|, i requires 0 <= i < |rows| => Texts(rows[i]))
  }

  // ---------------------------------------------------------------- reading

  /**
   * The inside of a quoted field, read after its opening quote: a doubled
   * quote stands for one quote, a single quote closes the field. Returns the
   * value and the text after the closing quote.
   */
  function ReadQuoted(s: string): (r: (string, string))
    ensures |r.1| <= |s|
  {
    if s == [] then ("", "")
    else if s[0] == '"' then
      if |s| >= 2 && s[1] == '"' then
        var more := ReadQuoted(s[2..]);
        ("\"" + more.0, more.1)
      else ("", s[1..])
    else
      var more := ReadQuoted(s[1..]);
      ([s[0]] + more.0, more.1)
  }

  /** An unquoted field: everything up to the next comma or line feed. */
  function ReadPlain(s: string): (r: (string, string))
    ensures |r.1| <= |s|
  {
    if s == [] || s[0] == ',' || s[0] == '\n' then ("", s)
    else
      var more := ReadPlain(s[1..]);
      ([s[0]] + more.0, more.1)
  }

  function ReadField(s: string): (r: (string, string))
    ensures |r.1| <= |s|
  {
    if s != [] && s[0] == '"' then ReadQuoted(s[1..]) else ReadPlain(s)
  }

  /** The fields of one record, and the text after it (starting at the record's line feed, if any). */
  function ReadRecord(s: string): (r: (seq<string>, string))
    ensures |r.1| <= |s|
    decreases |s|
  {
    var f := ReadField(s);
    if f.1 != [] && f.1[0] == ',' then
      var more := ReadRecord(f.1[1..]);
      ([f.0] + more.0, more.1)
    else ([f.0], f.1)
  }

  /** All records of a text, each a sequence of field values. */
  function Parse(s: string): (records: seq<seq<string>>)
    ensures |records| >= 1
    decreases |s|
  {
    var r := ReadRecord(s);
    if r.1 != [] && r.1[0] == '\n' then [r.0] + Parse(r.1[1..]) else [r.0]
  }

  // ---------------------------------------------------------------- round trips

  /** Un-doubling the quotes of an escaped text gives back the text. */
  lemma {:induction false} UnescapeEscape(t: string)
    ensures Unescape(Escape(t)) == t
  {
    if t != [] {
      UnescapeEscape(t[1..]);
      if t[0] == '"' {
        assert Escape(t) == "\"\"" + Escape(t[1..]);
        assert Escape(t)[2..] == Escape(t[1..]);
      } else {
        assert Escape(t) == [t[0]] + Escape(t[1..]);
        assert Escape(t)[1..] == Escape(t[1..]);
      }
    }
  }

  /** The reader stops at the quote that closes an escaped text, and returns the text itself. */
  lemma {:induction false} ReadQuotedEscape(t: string, tail: string)
    requires tail == [] || tail[0] != '"'
    ensures ReadQuoted(Escape(t) + "\"" + tail) == (t, tail)
  {
    var s := Escape(t) + "\"" + tail;
    if t == [] {
      assert s == "\"" + tail;
      assert s[1..] == tail;
    } else {
      ReadQuotedEscape(t[1..], tail);
      var s' := Escape(t[1..]) + "\"" + tail;
      if t[0] == '"' {
        assert s == "\"\"" + s';
        assert s[2..] == s';
      } else {
        assert s == [t[0]] + s';
        assert s[0] == t[0] && s[1..] == s';
      }
      assert [t[0]] + t[1..] == t;
    }
  }

  lemma {:induction false} ReadPlainSafe(t: string, tail: string)
    requires PlainSafe(t)
    requires tail == [] || tail[0] == ',' || tail[0] == '\n'
    ensures ReadPlain(t + tail) == (t, tail)
  {
    if t == [] {
      assert t + tail == tail;
    } else {
      ReadPlainSafe(t[1..], tail);
      assert (t + tail)[0] == t[0] && (t + tail)[1..] == t[1..] + tail;
      assert [t[0]] + t[1..] == t;
    }
  }

  /** A well-formed cell, followed by a separator or the end, reads back as its value. */
  lemma ReadFieldRender(c: Cell, tail: string)
    requires WellFormedCell(c)
    requires tail == [] || tail[0] == ',' || tail[0] == '\n'
    ensures ReadField(Render(c) + tail) == (c.text, tail)
  {
    match c
    case Plain(t) =>
      ReadPlainSafe(t, tail);
    case Quoted(t) =>
      var s := Render(c) + tail;
      assert s == "\"" + (Escape(t) + "\"" + tail);
      assert s[1..] == Escape(t) + "\"" + tail;
      ReadQuotedEscape(t, tail);
  }

  lemma RenderedTail(row: seq<Cell>)
    requires |row| >= 1
    ensures Rendered(row)[1..] == Rendered(row[1..])
  {
  }

  /** A row of one cell renders as that cell and stands for its value. */
  lemma RenderRowSingle(row: seq<Cell>)
    requires |row| == 1
    ensures RenderRow(row) == Render(row[0]) && Texts(row) == [row[0].text]
  {
  }

  /** A row of two or more cells renders as its first cell, a comma and the rest. */
  lemma RenderRowCons(row: seq<Cell>)
    requires |row| >= 2
    ensures RenderRow(row) == Render(row[0]) + "," + RenderRow(row[1..])
    ensures Texts(row) == [row[0].text] + Texts(row[1..])
  {
    RenderedTail(row);
  }

  /** A rendered row, followed by a line feed or the end, reads back as its values. */
  lemma {:induction false} ReadRecordRow(row: seq<Cell>, tail: string)
    requires |row| >= 1
    requires forall j | 0 <= j < |row| :: WellFormedCell(row[j])
    requires tail == [] || tail[0] == '\n'
    ensures ReadRecord(RenderRow(row) + tail) == (Texts(row), tail)
  {
    if |row| == 1 {
      RenderRowSingle(row);
      ReadFieldRender(row[0], tail);
    } else {
      RenderRowCons(row);
      ReadRecordRow(row[1..], tail);
      ReadRecordCons(row[0], RenderRow(row[1..]) + tail, Texts(row[1..]), tail);
      assert RenderRow(row) + tail == Render(row[0]) + ("," + (RenderRow(row[1..]) + tail));
    }
  }

  /** A well-formed cell, a comma and a readable rest read back as the cell's value followed by the rest's fields. */
  lemma ReadRecordCons(c: Cell, more: string, vs: seq<string>, tail: string)
    requires WellFormedCell(c)
    requires ReadRecord(more) == (vs, tail)
    ensures ReadRecord(Render(c) + ("," + more)) == ([c.text] + vs, tail)
  {
    var rest := "," + more;
    ReadFieldRender(c, rest);
    assert rest[1..] == more;
  }

  /** The round trip of the writer: reading written rows gives their values, row by row and field by field. */
  lemma {:induction false} ParseWrite(rows: seq<seq<Cell>>)
    requires |rows| >= 1
    requires WellFormedRows(rows)
    ensures Parse(Write(rows)) == Values(rows)
  {
    if |rows| == 1 {
      assert Write(rows) == RenderRow(rows[0]) + "";
      ReadRecordRow(rows[0], "");
    } else {
      assert RenderedRows(rows)[1..] == RenderedRows(rows[1..]);
      var rest := "\n" + Write(rows[1..]);
      assert Write(rows) == RenderRow(rows[0]) + rest;
      ReadRecordRow(rows[0], rest);
      assert rest[1..] == Write(rows[1..]);
      ParseWrite(rows[1..]);
      assert Values(rows) == [Texts(rows[0])] + Values(rows[1..]);
    }
  }
}
