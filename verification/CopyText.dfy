/**
  The text format of COPY, as the PostgreSQL reference page of COPY describes it under "Text
  Format", and the lines `table_writer` sends.

  Three parties share the format. The client (`table_writer`) escapes a character by putting a
  backslash in front of the raw character; the server's COPY TO uses a letter for the control
  characters; the server's COPY FROM reads both.
 */
module CopyText {
  import opened Basics

  const BACKSPACE: char := '\U{8}'
  const VERTICAL_TAB: char := '\U{B}'
  const FORM_FEED: char := '\U{C}'

  /** One row: a text per column, or NULL. */
  type Row = seq<Option<string>>

  /** Who wrote a line. */
  datatype Side = Client | Server

  /** The characters that both writers escape. */
  predicate Special(c: char) {
    || c == BACKSPACE || c == FORM_FEED || c == '\n' || c == '\r' || c == '\t' || c == VERTICAL_TAB
    || c == '\\'
  }

  /** The characters that end a field. */
  predicate Delimiter(c: char) { c == '\t' || c == '\n' }

  /** What follows the backslash when a special character is escaped. */
  function Code(side: Side, c: char): char {
    if side.Client? then c
    else if c == BACKSPACE then 'b'
    else if c == FORM_FEED then 'f'
    else if c == '\n' then 'n'
    else if c == '\r' then 'r'
    else if c == '\t' then 't'
    else if c == VERTICAL_TAB then 'v'
    else c
  }

  /** One character as it is written. */
  function Unit(side: Side, c: char): string {
    if Special(c) then ['\\', Code(side, c)] else [c]
  }

  function Escape(side: Side, s: string): string {
    if s == [] then [] else Unit(side, s[0]) + Escape(side, s[1..])
  }

  /** The client's text for NULL, and the server's. */
  const NULL_TEXT: string := ['\\', 'N']

  const NULL_MARKER: string := ['\\', 'N']

  function FieldText(side: Side, field: Option<string>): string {
    match field
    case None => if side.Client? then NULL_TEXT else NULL_MARKER
    case Some(s) => Escape(side, s)
  }

  /** The fields with a tab after each of them, except for the last one, which `end` follows. */
  function Fields(side: Side, row: Row, end: char): string {
    if row == [] then []
    else FieldText(side, row[0]) + ([if |row| == 1 then end else '\t'] + Fields(side, row[1..], end))
  }

  /** A row as one line. */
  function LineText(side: Side, row: Row): (line: string) {
    if row == [] then ['\n'] else Fields(side, row, '\n')
  }

  function Lines(side: Side, rows: seq<Row>): string {
    if rows == [] then [] else LineText(side, rows[0]) + Lines(side, rows[1..])
  }

  // ---------- COPY FROM, the server's reader ----------

  function OctalDigit(c: char): Option<nat> {
    if '0' <= c <= '7' then Some((c - '0') as nat) else None
  }

  function HexDigit(c: char): Option<nat> {
    if '0' <= c <= '9' then Some((c - '0') as nat)
    else if 'a' <= c <= 'f' then Some((c - 'a') as nat + 10)
    else if 'A' <= c <= 'F' then Some((c - 'A') as nat + 10)
    else None
  }

  /** How many of the first `most` characters of `s` are digits. */
  function DigitRun(s: string, digit: char -> Option<nat>, most: nat): (n: nat)
    ensures n <= |s| && n <= most
    ensures forall i :: 0 <= i < n ==> digit(s[i]).Some?
  {
    if most == 0 || s == [] || digit(s[0]).None? then 0
    else 1 + DigitRun(s[1..], digit, most - 1)
  }

  function DigitValue(s: string, digit: char -> Option<nat>, radix: nat): nat {
    if s == [] then 0
    else DigitValue(s[..|s| - 1], digit, radix) * radix
         + (match digit(s[|s| - 1]) case Some(d) => d case None => 0)
  }

  /** The character a run of digits names; only the low eight bits count. */
  function ByteChar(n: nat): char { (n % 256) as char }

  /** Removes the escapes of a raw field. */
  function Unescape(raw: string): string
    decreases |raw|
  {
    if raw == [] then []
    else if raw[0] != '\\' then [raw[0]] + Unescape(raw[1..])
    else if |raw| == 1 then []
    else
      var c := raw[1];
      if OctalDigit(c).Some? then
        var n := DigitRun(raw[1..], OctalDigit, 3);
        [ByteChar(DigitValue(raw[1..][..n], OctalDigit, 8))] + Unescape(raw[1 + n..])
      else if c == 'x' && DigitRun(raw[2..], HexDigit, 2) > 0 then
        var n := DigitRun(raw[2..], HexDigit, 2);
        [ByteChar(DigitValue(raw[2..][..n], HexDigit, 16))] + Unescape(raw[2 + n..])
      else if c == 'b' then [BACKSPACE] + Unescape(raw[2..])
      else if c == 'f' then [FORM_FEED] + Unescape(raw[2..])
      else if c == 'n' then ['\n'] + Unescape(raw[2..])
      else if c == 'r' then ['\r'] + Unescape(raw[2..])
      else if c == 't' then ['\t'] + Unescape(raw[2..])
      else if c == 'v' then [VERTICAL_TAB] + Unescape(raw[2..])
      else [c] + Unescape(raw[2..])
  }

  /** NULL is recognised on the raw text, before any escape is removed. */
  function FieldValue(raw: string): Option<string> {
    if raw == NULL_MARKER then None else Some(Unescape(raw))
  }

  /**
    The length of the raw field at the start of `text`. A field ends at an unescaped tab, newline
    or carriage return, at the marker `\.`, or with the text.
   */
  function FieldLength(text: string): (n: nat)
    ensures n <= |text|
    ensures n < |text| ==> Delimiter(text[n]) || text[n] == '\r' || text[n] == '\\'
  {
    if text == [] || Delimiter(text[0]) || text[0] == '\r' then 0
    else if text[0] != '\\' || |text| == 1 then 1 + FieldLength(text[1..])
    else if text[1] == '.' then 0
    else 2 + FieldLength(text[2..])
  }

  /** Reads one line: the row and the text after the line, or nothing when the line is malformed. */
  function ReadLine(text: string): (line: Option<(Row, string)>)
    ensures line.Some? && text != [] ==> |line.value.1| < |text|
    decreases |text|
  {
    var n := FieldLength(text);
    var field := FieldValue(text[..n]);
    if n == |text| then Some(([field], []))
    else if text[n] == '\n' then Some(([field], text[n + 1..]))
    else if text[n] == '\t' then
      match ReadLine(text[n + 1..])
      case None => None
      case Some((row, rest)) => Some(([field] + row, rest))
    else None
  }

  predicate StartsWithEndMarker(text: string) {
    |text| >= 2 && text[0] == '\\' && text[1] == '.'
  }

  /** All rows up to the end of the text or to the line `\.`. */
  function CopyFrom(text: string): Option<seq<Row>>
    decreases |text|
  {
    if text == [] || text == "\\." || (StartsWithEndMarker(text) && text[2] == '\n') then Some([])
    else
      match ReadLine(text)
      case None => None
      case Some((row, rest)) =>
        match CopyFrom(rest)
        case None => None
        case Some(rows) => Some([row] + rows)
  }

  // ---------- what COPY FROM makes of a written line ----------

  lemma {:induction false} UnescapeUnit(side: Side, c: char, more: string)
    ensures Unescape(Unit(side, c) + more) == [c] + Unescape(more)
  {
    var raw := Unit(side, c) + more;
    assert raw[|Unit(side, c)|..] == more;
  }

  lemma {:induction false} UnescapeEscape(side: Side, s: string)
    ensures Unescape(Escape(side, s)) == s
  {
    if s != [] {
      UnescapeEscape(side, s[1..]);
      UnescapeUnit(side, s[0], Escape(side, s[1..]));
    }
  }

  lemma FieldRoundTrip(side: Side, field: Option<string>)
    ensures FieldValue(FieldText(side, field)) == field
  {
    if field.Some? {
      UnescapeEscape(side, field.value);
    }
  }

  /** No control character of the six is written without a backslash in front of it. */
  lemma {:induction false} ControlsAreEscaped(side: Side, s: string, i: nat)
    requires i < |Escape(side, s)| && '\U{8}' <= Escape(side, s)[i] <= '\U{D}'
    ensures i > 0 && Escape(side, s)[i - 1] == '\\'
  {
    var n := |Unit(side, s[0])|;
    assert Escape(side, s)[..n] == Unit(side, s[0]);
    if i < n {
      assert Escape(side, s)[i] == Unit(side, s[0])[i];
    } else {
      ControlsAreEscaped(side, s[1..], i - n);
    }
  }

  lemma {:induction false} EscapeLength(side: Side, s: string, tail: string)
    requires tail != [] && Delimiter(tail[0])
    ensures FieldLength(Escape(side, s) + tail) == |Escape(side, s)|
  {
    if s == [] {
      assert Escape(side, s) + tail == tail;
    } else {
      var rest := Escape(side, s[1..]);
      EscapeLength(side, s[1..], tail);
      Associative(Unit(side, s[0]), rest, tail);
    }
  }

  /** The server finds the end of a written field where the field ends. */
  lemma {:induction false} FieldEndsAtDelimiter(side: Side, field: Option<string>, tail: string)
    requires tail != [] && Delimiter(tail[0])
    ensures FieldLength(FieldText(side, field) + tail) == |FieldText(side, field)|
  {
    match field
    case None =>
      var text := NULL_TEXT + tail;
      assert text[2..] == tail;
      assert FieldLength(text) == 2 + FieldLength(tail);
    case Some(s) => EscapeLength(side, s, tail);
  }

  /** Reading a line whose only field is a written one. */
  lemma {:induction false} ReadLastField(side: Side, field: Option<string>, rest: string)
    ensures ReadLine(FieldText(side, field) + (['\n'] + rest)) == Some(([field], rest))
  {
    var n := |FieldText(side, field)|;
    var text := FieldText(side, field) + (['\n'] + rest);
    FieldEndsAtDelimiter(side, field, ['\n'] + rest);
    FieldRoundTrip(side, field);
    assert text[..n] == FieldText(side, field);
    assert text[n] == '\n' && text[n + 1..] == rest;
  }

  /** Reading a line whose first field is a written one. */
  lemma {:induction false} ReadFirstField(side: Side, field: Option<string>, more: string, row: Row, rest: string)
    requires ReadLine(more) == Some((row, rest))
    ensures ReadLine(FieldText(side, field) + (['\t'] + more)) == Some(([field] + row, rest))
  {
    var n := |FieldText(side, field)|;
    var text := FieldText(side, field) + (['\t'] + more);
    FieldEndsAtDelimiter(side, field, ['\t'] + more);
    FieldRoundTrip(side, field);
    assert text[..n] == FieldText(side, field);
    assert text[n] == '\t' && text[n + 1..] == more;
  }

  /** A written row in front of more text, cut after its first field. */
  lemma {:induction false} CutFirstField(side: Side, row: Row, rest: string)
    requires row != []
    ensures var more := Fields(side, row[1..], '\n') + rest;
            Fields(side, row, '\n') + rest
            == FieldText(side, row[0]) + ([if |row| == 1 then '\n' else '\t'] + more)
  {
    var delimiter := [if |row| == 1 then '\n' else '\t'];
    var more := Fields(side, row[1..], '\n');
    Associative(FieldText(side, row[0]), delimiter + more, rest);
    Associative(delimiter, more, rest);
  }

  lemma {:induction false} ReadLineOfWritten(side: Side, row: Row, rest: string)
    requires row != []
    ensures ReadLine(Fields(side, row, '\n') + rest) == Some((row, rest))
    decreases |row|
  {
    CutFirstField(side, row, rest);
    var more := Fields(side, row[1..], '\n') + rest;
    assert [row[0]] + row[1..] == row;
    if |row| == 1 {
      assert row[1..] == [] && more == rest;
      assert [row[0]] == row;
      ReadLastField(side, row[0], rest);
    } else {
      ReadLineOfWritten(side, row[1..], rest);
      ReadFirstField(side, row[0], more, row[1..], rest);
    }
  }

  /** No written line can be taken for the end marker `\.`. */
  lemma NoEndMarker(side: Side, row: Row, rest: string)
    requires row != []
    ensures !StartsWithEndMarker(LineText(side, row) + rest)
  {
    var text := LineText(side, row) + rest;
    match row[0]
    case None => assert text[..2] == NULL_TEXT;
    case Some(s) =>
      if s != [] {
        assert text[..|Unit(side, s[0])|] == Unit(side, s[0]);
      } else {
        assert Delimiter(text[0]);
      }
  }

  lemma {:induction false} CopyFromWrittenLine(side: Side, row: Row, rest: string, rows: seq<Row>)
    requires row != [] && CopyFrom(rest) == Some(rows)
    ensures CopyFrom(LineText(side, row) + rest) == Some([row] + rows)
  {
    NoEndMarker(side, row, rest);
    ReadLineOfWritten(side, row, rest);
    var text := LineText(side, row) + rest;
    assert |LineText(side, row)| > 0;
  }

  /**
    For every sequence of rows with at least one column, what one side wrote is read back by
    COPY FROM as exactly those rows, in order, with NULL kept apart from every text.
   */
  lemma {:induction false} CopyFromOfWritten(side: Side, rows: seq<Row>)
    requires forall i :: 0 <= i < |rows| ==> rows[i] != []
    ensures CopyFrom(Lines(side, rows)) == Some(rows)
  {
    if rows != [] {
      CopyFromOfWritten(side, rows[1..]);
      CopyFromWrittenLine(side, rows[0], Lines(side, rows[1..]), rows[1..]);
      assert [rows[0]] + rows[1..] == rows;
    }
  }

  // ---------- the client's writer ----------

  /** `find_first_of`: the first special character, if there is one. */
  method FindSpecial(data: string) returns (n: Option<nat>)
    ensures n.None? ==> forall i :: 0 <= i < |data| ==> !Special(data[i])
    ensures n.Some? ==> n.value < |data| && Special(data[n.value])
                        && forall i :: 0 <= i < n.value ==> !Special(data[i])
  {
    for i := 0 to |data|
      invariant forall j :: 0 <= j < i ==> !Special(data[j])
    {
      if Special(data[i]) {
        return Some(i);
      }
    }
    return None;
  }

  lemma {:induction false} EscapePlain(side: Side, plain: string, rest: string)
    requires forall i :: 0 <= i < |plain| ==> !Special(plain[i])
    ensures Escape(side, plain + rest) == plain + Escape(side, rest)
  {
    if plain == [] {
      assert plain + rest == rest;
    } else {
      assert (plain + rest)[1..] == plain[1..] + rest;
      EscapePlain(side, plain[1..], rest);
    }
  }

  /** One pass of the loop of `table_writer_append`. */
  lemma {:induction false} AppendPass(rest: string, n: nat)
    requires n < |rest| && Special(rest[n]) && forall i :: 0 <= i < n ==> !Special(rest[i])
    ensures Escape(Client, rest) == rest[..n] + (Unit(Client, rest[n]) + Escape(Client, rest[n + 1..]))
  {
    EscapePlain(Client, rest[..n], rest[n..]);
    assert rest[..n] + rest[n..] == rest;
    assert rest[n..][1..] == rest[n + 1..];
  }

  method TableWriterAppend(buffer: string, data: string) returns (result: string)
    ensures result == buffer + Escape(Client, data)
  {
    result := buffer;
    var rest := data;
    while true
      invariant result + Escape(Client, rest) == buffer + Escape(Client, data)
      decreases |rest|
    {
      var n := FindSpecial(rest);
      if n.None? {
        EscapePlain(Client, rest, []);
        assert rest + [] == rest;
        result := result + rest;
        return;
      }
      AppendPass(rest, n.value);
      ghost var unit := Unit(Client, rest[n.value]);
      ghost var more := Escape(Client, rest[n.value + 1..]);
      Associative(result, rest[..n.value], unit + more);
      Associative(result + rest[..n.value], unit, more);
      Associative(result + rest[..n.value], ['\\'], [rest[n.value]]);
      assert unit == ['\\'] + [rest[n.value]];
      result := result + rest[..n.value];
      result := result + ['\\'];
      result := result + [rest[n.value]];
      rest := rest[n.value + 1..];
    }
  }

  lemma {:induction false} FieldsAppend(side: Side, row: Row, field: Option<string>, end: char)
    ensures Fields(side, row + [field], end)
         == Fields(side, row, '\t') + (FieldText(side, field) + [end])
    decreases |row|
  {
    var longer := row + [field];
    if row == [] {
      assert longer == [field];
      assert [end] + [] == [end];
    } else {
      var more := Fields(side, row[1..], '\t');
      var last := FieldText(side, field) + [end];
      assert longer[1..] == row[1..] + [field];
      FieldsAppend(side, row[1..], field, end);
      Associative(['\t'], more, last);
      Associative(FieldText(side, row[0]), ['\t'] + more, last);
      assert |row| == 1 ==> Fields(side, row[1..], '\t') == [];
    }
  }

  /** `insert_indexed`: every field is followed by a tab, and the last tab becomes a newline. */
  method InsertIndexed(row: Row) returns (buffer: string)
    requires row != []
    ensures buffer == LineText(Client, row)
  {
    buffer := [];
    for i := 0 to |row|
      invariant buffer == Fields(Client, row[..i], '\t')
    {
      ghost var before := buffer;
      match row[i] {
        case None => buffer := buffer + NULL_TEXT;
        case Some(s) => buffer := TableWriterAppend(buffer, s);
      }
      assert buffer == before + FieldText(Client, row[i]);
      buffer := buffer + ['\t'];
      FieldsAppend(Client, row[..i], row[i], '\t');
      Associative(before, FieldText(Client, row[i]), ['\t']);
      assert row[..i + 1] == row[..i] + [row[i]];
    }
    LastTab(row);
    assert row[..|row|] == row;
    buffer := buffer[|buffer| - 1 := '\n'];
  }

  lemma {:induction false} LastTab(row: Row)
    requires row != []
    ensures Fields(Client, row, '\t') != []
    ensures var tabbed := Fields(Client, row, '\t');
            tabbed[|tabbed| - 1 := '\n'] == LineText(Client, row)
  {
    var init, last := row[..|row| - 1], row[|row| - 1];
    assert row == init + [last];
    FieldsAppend(Client, init, last, '\t');
    FieldsAppend(Client, init, last, '\n');
  }
}
