/**
 * CSV as it is written (`csvCell`, change-log.ts) and as it is read back (the tokeniser loop of
 * `parseCsv`, scripts/backfill-listening-sessions.ts). Quoting follows section 2 of RFC 4180.
 */
module Csv {
  import opened Prelude

  predicate Special(c: char) { c == '"' || c == ',' || c == '\n' || c == '\r' }

  function Doubled(s: string): string {
    if s == "" then "" else (if s[0] == '"' then ['"', '"'] else [s[0]]) + Doubled(s[1..])
  }

  predicate NeedsQuotes(s: string) { exists c :: c in s && Special(c) }

  /** One cell; null is written as an empty cell. */
  function CsvCell(v: Option<string>): string {
    if v.None? then ""
    else if NeedsQuotes(v.value) then ['"'] + Doubled(v.value) + ['"']
    else v.value
  }

  function CsvLine(cells: seq<Option<string>>): string {
    if cells == [] then ""
    else if |cells| == 1 then CsvCell(cells[0])
    else CsvCell(cells[0]) + [','] + CsvLine(cells[1..])
  }

  /** Newline-terminated lines. */
  function Lines(lines: seq<string>): string {
    if lines == [] then "" else lines[0] + ['\n'] + Lines(lines[1..])
  }

  function TextOf(rows: seq<seq<Option<string>>>): string {
    if rows == [] then "" else CsvLine(rows[0]) + ['\n'] + TextOf(rows[1..])
  }

  /** What a reader sees of a cell. */
  function Shown(v: Option<string>): string { if v.Some? then v.value else "" }

  function ShownRow(cells: seq<Option<string>>): (r: seq<string>)
    ensures |r| == |cells|
  {
    seq(|cells|, i requires 0 <= i < |cells| => Shown(cells[i]))
  }

  function ShownRows(rows: seq<seq<Option<string>>>): (r: seq<seq<string>>)
    ensures |r| == |rows|
  {
    seq(|rows|, i requires 0 <= i < |rows| => ShownRow(rows[i]))
  }

  lemma ShownAppend(a: seq<seq<Option<string>>>, b: seq<seq<Option<string>>>)
    ensures ShownRows(a + b) == ShownRows(a) + ShownRows(b)
  {
  }

  // ---- the tokeniser ----

  datatype Lexer = Lexer(rows: seq<seq<string>>, row: seq<string>, field: string, quoted: bool)

  const START := Lexer([], [], "", false)

  function Lex(t: Lexer, text: string): Lexer
    decreases |text|
  {
    if text == "" then t
    else
      var ch := text[0];
      if t.quoted then
        if ch != '"' then Lex(t.(field := t.field + [ch]), text[1..])
        else if |text| > 1 && text[1] == '"' then Lex(t.(field := t.field + ['"']), text[2..])
        else Lex(t.(quoted := false), text[1..])
      else if ch == '"' then Lex(t.(quoted := true), text[1..])
      else if ch == ',' then Lex(t.(row := t.row + [t.field], field := ""), text[1..])
      else if ch == '\n' then Lex(Lexer(t.rows + [t.row + [t.field]], [], "", false), text[1..])
      else if ch == '\r' then Lex(t, text[1..])
      else Lex(t.(field := t.field + [ch]), text[1..])
  }

  function Rows(t: Lexer): seq<seq<string>> {
    if t.field != "" || |t.row| > 0 then t.rows + [t.row + [t.field]] else t.rows
  }

  function Parse(text: string): seq<seq<string>> { Rows(Lex(START, text)) }

  /** The character loop with its one character of lookahead. */
  method ParseCsv(text: string) returns (rows: seq<seq<string>>)
    ensures rows == Parse(text)
  {
    rows := [];
    var row: seq<string> := [];
    var field := "";
    var quoted := false;
    var i := 0;
    while i < |text|
      invariant i <= |text|
      invariant Lex(Lexer(rows, row, field, quoted), text[i..]) == Lex(START, text)
    {
      var ch := text[i];
      assert text[i..][0] == ch && text[i..][1..] == text[i + 1..];
      assert i + 1 < |text| ==> text[i..][1] == text[i + 1] && text[i..][2..] == text[i + 2..];
      if quoted {
        if ch == '"' {
          if i + 1 < |text| && text[i + 1] == '"' {
            field := field + ['"'];
            i := i + 1;
          } else {
            quoted := false;
          }
        } else {
          field := field + [ch];
        }
        i := i + 1;
        continue;
      }
      if ch == '"' { quoted := true; }
      else if ch == ',' { row, field := row + [field], ""; }
      else if ch == '\n' { rows, row, field := rows + [row + [field]], [], ""; }
      else if ch != '\r' { field := field + [ch]; }
      i := i + 1;
    }
    if field != "" || |row| > 0 { rows := rows + [row + [field]]; }
  }

  // ---- the round trip ----

  lemma {:induction false} LexPlain(t: Lexer, s: string, rest: string)
    requires !t.quoted && forall c :: c in s ==> !Special(c)
    ensures Lex(t, s + rest) == Lex(t.(field := t.field + s), rest)
    decreases |s|
  {
    if s == "" {
      assert s + rest == rest && t.field + s == t.field;
    } else {
      assert s[0] in s && (s + rest)[1..] == s[1..] + rest;
      LexPlain(t.(field := t.field + [s[0]]), s[1..], rest);
      assert t.field + [s[0]] + s[1..] == t.field + s;
    }
  }

  lemma {:induction false} LexQuoted(t: Lexer, s: string, rest: string)
    requires t.quoted && (rest == "" || rest[0] != '"')
    ensures Lex(t, Doubled(s) + ['"'] + rest) == Lex(t.(field := t.field + s, quoted := false), rest)
    decreases |s|
  {
    var text := Doubled(s) + ['"'] + rest;
    if s == "" {
      assert text == ['"'] + rest && text[1..] == rest && t.field + s == t.field;
    } else {
      var next := t.(field := t.field + [s[0]]);
      var tail := Doubled(s[1..]) + ['"'] + rest;
      if s[0] == '"' {
        assert text == ['"', '"'] + tail && text[2..] == tail;
      } else {
        assert text == [s[0]] + tail && text[1..] == tail;
      }
      LexQuoted(next, s[1..], rest);
      assert t.field + [s[0]] + s[1..] == t.field + s;
    }
  }

  lemma LexQuotedCell(t: Lexer, s: string, rest: string)
    requires !t.quoted && t.field == "" && (rest == "" || rest[0] != '"')
    ensures Lex(t, ['"'] + (Doubled(s) + ['"'] + rest)) == Lex(t.(field := s), rest)
  {
    LexOpenQuote(t, Doubled(s) + ['"'] + rest);
    LexQuoted(t.(quoted := true), s, rest);
    assert t.field + s == s;
  }

  lemma LexPlainCell(t: Lexer, s: string, rest: string)
    requires !t.quoted && t.field == "" && forall c :: c in s ==> !Special(c)
    ensures Lex(t, s + rest) == Lex(t.(field := s), rest)
  {
    LexPlain(t, s, rest);
    assert t.field + s == s;
  }

  lemma LexOpenQuote(t: Lexer, rest: string)
    requires !t.quoted
    ensures Lex(t, ['"'] + rest) == Lex(t.(quoted := true), rest)
  {
    assert (['"'] + rest)[1..] == rest;
  }

  /** A written cell is read back as one field, up to the separator that follows it. */
  lemma LexCell(t: Lexer, v: Option<string>, rest: string)
    requires !t.quoted && t.field == "" && (rest == "" || rest[0] != '"')
    ensures Lex(t, CsvCell(v) + rest) == Lex(t.(field := Shown(v)), rest)
  {
    var s := Shown(v);
    if NeedsQuotes(s) {
      LexQuotedCell(t, s, rest);
      Assoc(['"'], Doubled(s), ['"']);
      Assoc(['"'], Doubled(s) + ['"'], rest);
    } else {
      LexPlainCell(t, s, rest);
    }
  }

  /** A line ends in a newline, with a carriage return before it or without. */
  function LineEnd(crlf: bool): string { if crlf then ['\r', '\n'] else ['\n'] }

  lemma LexLineEnd(t: Lexer, crlf: bool, rest: string)
    requires !t.quoted
    ensures Lex(t, LineEnd(crlf) + rest) == Lex(Lexer(t.rows + [t.row + [t.field]], [], "", false), rest)
  {
    var end := ['\n'] + rest;
    assert end[1..] == rest;
    if crlf {
      assert LineEnd(crlf) + rest == ['\r'] + end && (['\r'] + end)[1..] == end;
    }
  }

  /** The last cell of a line. */
  lemma LexLastCell(t: Lexer, v: Option<string>, crlf: bool, rest: string)
    requires !t.quoted && t.field == ""
    ensures Lex(t, CsvCell(v) + (LineEnd(crlf) + rest))
         == Lex(Lexer(t.rows + [t.row + [Shown(v)]], [], "", false), rest)
  {
    LexCell(t, v, LineEnd(crlf) + rest);
    LexLineEnd(t.(field := Shown(v)), crlf, rest);
  }

  /** A cell that another one follows. */
  lemma LexNextCell(t: Lexer, v: Option<string>, more: string)
    requires !t.quoted && t.field == ""
    ensures Lex(t, CsvCell(v) + ([','] + more)) == Lex(t.(row := t.row + [Shown(v)]), more)
  {
    LexCell(t, v, [','] + more);
    assert ([','] + more)[1..] == more;
  }

  lemma LineParts(cells: seq<Option<string>>, end: string)
    requires |cells| > 1
    ensures CsvLine(cells) + end == CsvCell(cells[0]) + ([','] + (CsvLine(cells[1..]) + end))
  {
    var first, more := CsvCell(cells[0]), CsvLine(cells[1..]);
    assert CsvLine(cells) == first + [','] + more;
    Assoc(first, [','], more);
    Assoc(first, [','] + more, end);
    Assoc([','], more, end);
  }

  lemma ShownParts(row: seq<string>, cells: seq<Option<string>>)
    requires cells != []
    ensures row + ShownRow(cells) == row + [Shown(cells[0])] + ShownRow(cells[1..])
  {
    assert ShownRow(cells) == [Shown(cells[0])] + ShownRow(cells[1..]);
    Assoc(row, [Shown(cells[0])], ShownRow(cells[1..]));
  }

  lemma {:induction false} LexLine(t: Lexer, cells: seq<Option<string>>, crlf: bool, rest: string)
    requires !t.quoted && t.field == "" && cells != []
    ensures Lex(t, CsvLine(cells) + (LineEnd(crlf) + rest))
         == Lex(Lexer(t.rows + [t.row + ShownRow(cells)], [], "", false), rest)
    decreases |cells|
  {
    var v := cells[0];
    if |cells| == 1 {
      LexLastCell(t, v, crlf, rest);
      assert ShownRow(cells) == [Shown(v)];
    } else {
      LineParts(cells, LineEnd(crlf) + rest);
      LexNextCell(t, v, CsvLine(cells[1..]) + (LineEnd(crlf) + rest));
      LexLine(t.(row := t.row + [Shown(v)]), cells[1..], crlf, rest);
      ShownParts(t.row, cells);
    }
  }

  /** The rows as another program may have written them, line `i` ending as `crlf[i]` says. */
  function TextWithEnds(rows: seq<seq<Option<string>>>, crlf: seq<bool>): string
    requires |crlf| == |rows|
  {
    if rows == [] then "" else CsvLine(rows[0]) + (LineEnd(crlf[0]) + TextWithEnds(rows[1..], crlf[1..]))
  }

  lemma ShownRowsParts(before: seq<seq<string>>, rows: seq<seq<Option<string>>>)
    requires rows != []
    ensures before + ShownRows(rows) == before + [ShownRow(rows[0])] + ShownRows(rows[1..])
  {
    assert ShownRows(rows) == [ShownRow(rows[0])] + ShownRows(rows[1..]);
    Assoc(before, [ShownRow(rows[0])], ShownRows(rows[1..]));
  }

  lemma {:induction false} LexWithEnds(t: Lexer, rows: seq<seq<Option<string>>>, crlf: seq<bool>)
    requires |crlf| == |rows| && !t.quoted && t.field == "" && t.row == []
    requires forall r :: r in rows ==> r != []
    ensures Lex(t, TextWithEnds(rows, crlf)) == t.(rows := t.rows + ShownRows(rows))
    decreases |rows|
  {
    if rows == [] {
      assert t.rows + ShownRows(rows) == t.rows;
    } else {
      assert rows[0] in rows && forall r :: r in rows[1..] ==> r in rows;
      LexLine(t, rows[0], crlf[0], TextWithEnds(rows[1..], crlf[1..]));
      assert [] + ShownRow(rows[0]) == ShownRow(rows[0]);
      LexWithEnds(t.(rows := t.rows + [ShownRow(rows[0])]), rows[1..], crlf[1..]);
      ShownRowsParts(t.rows, rows);
    }
  }

  lemma {:induction false} TextIsWithEnds(rows: seq<seq<Option<string>>>)
    ensures TextOf(rows) == TextWithEnds(rows, seq(|rows|, _ => false))
  {
    if rows != [] {
      TextIsWithEnds(rows[1..]);
      assert seq(|rows|, _ => false)[1..] == seq(|rows| - 1, _ => false);
      Assoc(CsvLine(rows[0]), ['\n'], TextOf(rows[1..]));
    }
  }

  lemma LexText(t: Lexer, rows: seq<seq<Option<string>>>)
    requires !t.quoted && t.field == "" && t.row == []
    requires forall r :: r in rows ==> r != []
    ensures Lex(t, TextOf(rows)) == t.(rows := t.rows + ShownRows(rows))
  {
    TextIsWithEnds(rows);
    LexWithEnds(t, rows, seq(|rows|, _ => false));
  }

  /** Reading what was written gives back every cell of every row, whatever characters they hold. */
  lemma RoundTrip(rows: seq<seq<Option<string>>>)
    requires forall r :: r in rows ==> r != []
    ensures Parse(TextOf(rows)) == ShownRows(rows)
  {
    LexText(START, rows);
    assert [] + ShownRows(rows) == ShownRows(rows);
  }

  /** How the lines end makes no difference to what is read. */
  lemma LineEndsIgnored(rows: seq<seq<Option<string>>>, crlf: seq<bool>)
    requires |crlf| == |rows| && forall r :: r in rows ==> r != []
    ensures Parse(TextWithEnds(rows, crlf)) == ShownRows(rows)
  {
    LexWithEnds(START, rows, crlf);
    assert [] + ShownRows(rows) == ShownRows(rows);
  }

  /** A cell is written as it is exactly if nothing in it means something to a reader. */
  lemma QuotedIff(s: string)
    ensures CsvCell(Some(s)) == s <==> forall c :: c in s ==> c != '"' && c != ',' && c != '\n' && c != '\r'
  {
    if NeedsQuotes(s) { DoubledLength(s); }
  }

  lemma {:induction false} DoubledLength(s: string)
    ensures |Doubled(s)| >= |s|
  {
    if s != "" { DoubledLength(s[1..]); }
  }

  // ---- appending ----

  /** The lexer after a character that needs no lookahead. */
  function Advance(t: Lexer, ch: char): Lexer
    requires t.quoted ==> ch != '"'
  {
    if t.quoted then t.(field := t.field + [ch])
    else if ch == '"' then t.(quoted := true)
    else if ch == ',' then t.(row := t.row + [t.field], field := "")
    else if ch == '\n' then Lexer(t.rows + [t.row + [t.field]], [], "", false)
    else if ch == '\r' then t
    else t.(field := t.field + [ch])
  }

  lemma LexStep(t: Lexer, a: string, b: string)
    requires a != "" && (t.quoted ==> a[0] != '"')
    ensures Lex(t, a) == Lex(Advance(t, a[0]), a[1..])
    ensures Lex(t, a + b) == Lex(Advance(t, a[0]), a[1..] + b)
  {
    assert (a + b)[0] == a[0] && (a + b)[1..] == a[1..] + b;
  }

  lemma LexPairStep(t: Lexer, a: string, b: string)
    requires |a| > 1 && t.quoted && a[0] == '"' && a[1] == '"'
    ensures var u := t.(field := t.field + ['"']);
      Lex(t, a) == Lex(u, a[2..]) && Lex(t, a + b) == Lex(u, a[2..] + b)
  {
    assert (a + b)[0] == a[0] && (a + b)[1] == a[1] && (a + b)[2..] == a[2..] + b;
  }

  lemma LexCloseStep(t: Lexer, a: string, b: string)
    requires |a| > 1 && t.quoted && a[0] == '"' && a[1] != '"'
    ensures var u := t.(quoted := false);
      Lex(t, a) == Lex(u, a[1..]) && Lex(t, a + b) == Lex(u, a[1..] + b)
  {
    assert (a + b)[0] == a[0] && (a + b)[1] == a[1] && (a + b)[1..] == a[1..] + b;
  }

  lemma LexLastQuote(t: Lexer, b: string)
    requires t.quoted
    ensures Lex(t, ['"']) == t.(quoted := false)
    ensures Lex(t, ['"'] + b) ==
      if b != "" && b[0] == '"' then Lex(t.(field := t.field + ['"']), b[1..]) else Lex(t.(quoted := false), b)
  {
    var text := ['"'] + b;
    assert text[1..] == b && ['"'][1..] == "";
    if b != "" { assert text[1] == b[0] && text[2..] == b[1..]; }
  }

  /**
   * Reading may be cut anywhere, except that a closing quote at the end of `a` and a quote at the start
   * of `b` are read as one escaped quote.
   */
  lemma {:induction false} LexSplit(t: Lexer, a: string, b: string)
    ensures Lex(t, a + b) == ReadOn(t, a, b)
    decreases |a|
  {
    if a == "" {
      assert a + b == b;
    } else if t.quoted && a[0] == '"' {
      if |a| == 1 {
        assert a == ['"'];
        LexLastQuote(t, b);
      } else if a[1] == '"' {
        LexPairStep(t, a, b);
        LexSplit(t.(field := t.field + ['"']), a[2..], b);
      } else {
        LexCloseStep(t, a, b);
        LexSplit(t.(quoted := false), a[1..], b);
      }
    } else {
      LexStep(t, a, b);
      LexSplit(Advance(t, a[0]), a[1..], b);
    }
  }

  /** Reading `b` after `a`. */
  function ReadOn(t: Lexer, a: string, b: string): Lexer {
    var u := Lex(t, a);
    if ClosesAtEnd(t, a) && b != "" && b[0] == '"' then Lex(u.(field := u.field + ['"'], quoted := true), b[1..])
    else Lex(u, b)
  }

  /** The text ends with a quote that, as far as the text goes, closes a cell. */
  predicate ClosesAtEnd(t: Lexer, a: string) {
    a != "" && a[|a| - 1] == '"' && !Lex(t, a).quoted
  }

  /** A text whose last row is finished: no open quote, no pending cell, and no quote at the very end. */
  predicate Finished(text: string) {
    var u := Lex(START, text);
    !u.quoted && u.row == [] && u.field == "" && (text == "" || text[|text| - 1] != '"')
  }

  /** Rows appended to a text whose last row is finished are read after its own rows. */
  lemma AppendedRows(text: string, rows: seq<seq<Option<string>>>)
    requires Finished(text)
    requires forall r :: r in rows ==> r != []
    ensures Parse(text + TextOf(rows)) == Parse(text) + ShownRows(rows)
  {
    LexSplit(START, text, TextOf(rows));
    LexText(Lex(START, text), rows);
  }

  /** What the journal itself wrote is finished, so a later run may append to it. */
  lemma WrittenIsFinished(text: string, rows: seq<seq<Option<string>>>)
    requires Finished(text)
    requires forall r :: r in rows ==> r != []
    ensures Finished(text + TextOf(rows))
  {
    LexSplit(START, text, TextOf(rows));
    LexText(Lex(START, text), rows);
    TextEnds(rows);
    if rows == [] {
      assert text + TextOf(rows) == text;
    } else {
      var end := TextOf(rows);
      assert (text + end)[|text + end| - 1] == end[|end| - 1];
    }
  }

  lemma {:induction false} TextEnds(rows: seq<seq<Option<string>>>)
    ensures rows != [] ==> TextOf(rows) != "" && TextOf(rows)[|TextOf(rows)| - 1] == '\n'
  {
    if rows != [] {
      TextEnds(rows[1..]);
      var line, rest := CsvLine(rows[0]) + ['\n'], TextOf(rows[1..]);
      assert TextOf(rows) == line + rest;
      if rows[1..] == [] {
        assert line + rest == line;
      }
    }
  }

  /** Whatever is appended, it is read back after what was there. */
  ghost predicate Appendable(text: string) {
    forall rows: seq<seq<Option<string>>> :: (forall r :: r in rows ==> r != []) ==>
      Parse(text + TextOf(rows)) == Parse(text) + ShownRows(rows)
  }

  /** The row that shows that a text cannot be appended to. */
  function Spoiled(text: string): seq<Option<string>> {
    [Some(if ClosesAtEnd(START, text) then "\"" else "b")]
  }

  lemma OneCell(s: string, c: char)
    requires s == [c]
    ensures TextOf([[Some(s)]]) == if Special(c) then ['"'] + Doubled(s) + ['"', '\n'] else s + ['\n']
  {
    var row: seq<Option<string>> := [Some(s)];
    assert c in s;
    assert TextOf([row]) == CsvLine(row) + ['\n'] + TextOf([]);
    assert CsvLine(row) == CsvCell(Some(s));
    assert CsvLine(row) + ['\n'] + "" == CsvLine(row) + ['\n'];
    assert (['"'] + Doubled(s) + ['"']) + ['\n'] == ['"'] + Doubled(s) + ['"', '\n'];
  }

  lemma LexPlainLine(t: Lexer)
    ensures Lex(t, "b\n") == if t.quoted then t.(field := t.field + "b\n")
                             else Lexer(t.rows + [t.row + [t.field + "b"]], [], "", false)
  {
    assert "b\n"[1..] == "\n" && "\n"[1..] == "";
    var u := t.(field := t.field + ['b']);
    assert Lex(t, "b\n") == Lex(u, "\n");
    assert u.field + ['\n'] == t.field + "b\n";
  }

  lemma LexQuoteLine(t: Lexer)
    requires t.quoted
    ensures Lex(t, "\"\"\"\n") == Lexer(t.rows + [t.row + [t.field + "\""]], [], "", false)
  {
    var u := t.(field := t.field + ['"']);
    assert "\"\"\"\n"[2..] == "\"\n" && "\"\n"[1..] == "\n" && "\n"[1..] == "";
    assert Lex(t, "\"\"\"\n") == Lex(u, "\"\n") == Lex(u.(quoted := false), "\n");
  }

  lemma DoubledQuote()
    ensures Doubled("\"") == "\"\""
  {
    assert "\""[1..] == "";
  }

  /** How the last row comes out when a row is appended to an unfinished text. */
  lemma SpoiledRow(text: string)
    requires !Finished(text)
    ensures var u := Lex(START, text);
      var end := if ClosesAtEnd(START, text) then "\"\"" else if u.quoted then "b\n" else "b";
      Parse(text + TextOf([Spoiled(text)])) == u.rows + [u.row + [u.field + end]]
  {
    var u := Lex(START, text);
    var line := TextOf([Spoiled(text)]);
    LexSplit(START, text, line);
    if ClosesAtEnd(START, text) {
      OneCell("\"", '"');
      DoubledQuote();
      assert line == "\"\"\"\"\n" && line[1..] == "\"\"\"\n";
      LexQuoteLine(u.(field := u.field + ['"'], quoted := true));
      assert u.field + ['"'] + "\"" == u.field + "\"\"";
    } else {
      OneCell("b", 'b');
      assert line == "b\n";
      LexPlainLine(u);
    }
  }

  /** Appending works on finished texts and on no others. */
  lemma AppendableIffFinished(text: string)
    ensures Appendable(text) <==> Finished(text)
  {
    if Finished(text) {
      forall rows: seq<seq<Option<string>>> | forall r :: r in rows ==> r != []
        ensures Parse(text + TextOf(rows)) == Parse(text) + ShownRows(rows)
      {
        AppendedRows(text, rows);
      }
    } else {
      var u, row := Lex(START, text), Spoiled(text);
      SpoiledRow(text);
      var read, hoped := Parse(text + TextOf([row])), Parse(text) + ShownRows([row]);
      assert ShownRow(row) == [Shown(row[0])] && ShownRows([row]) == [ShownRow(row)];
      if u.row == [] && u.field == "" {
        assert read[|u.rows|] != hoped[|u.rows|] by {
          assert read[|u.rows|][0] != Shown(row[0]);
        }
      } else {
        assert |read| < |hoped|;
      }
      assert forall r :: r in [row] ==> r != [];
    }
  }
}
