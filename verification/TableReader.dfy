/**
  `table_reader::parse_data`: one line of COPY TO output is unescaped inside its own buffer, and
  the reader keeps pointers into that buffer. A pointer is an index here; an absent index is the
  null pointer that stands for NULL.
 */
module TableReader {
  import opened Basics
  import opened CopyText

  /** The characters of `s` stand in `buffer` from `p` on. */
  ghost predicate Has(buffer: seq<char>, p: nat, s: string) {
    p + |s| <= |buffer| && forall j :: 0 <= j < |s| ==> buffer[p + j] == s[j]
  }

  /** What an entry of the reader has to show: null for NULL, else a NUL-terminated copy. */
  ghost predicate Shows(buffer: seq<char>, entry: Option<nat>, field: Option<string>) {
    match field
    case None => entry == None
    case Some(s) => entry.Some? && Has(buffer, entry.value, s + [NUL])
  }

  /** One entry per column, and each shows its field. */
  ghost predicate ShowsRow(buffer: seq<char>, data: seq<Option<nat>>, row: Row) {
    |data| == |row| && forall i :: 0 <= i < |row| ==> Shows(buffer, data[i], row[i])
  }

  ghost predicate RowNulFree(row: Row) {
    forall i :: 0 <= i < |row| && row[i].Some? ==> NulFree(row[i].value)
  }

  predicate Break(c: char) { Delimiter(c) || c == '\\' }

  /** `strpbrk` walks over all of `s`. */
  predicate NoBreak(s: string) { forall j :: 0 <= j < |s| ==> !Break(s[j]) && s[j] != NUL }

  /**
    A row without columns is written like a row with one empty text, and it is read as that:
    the number of entries equals the number of columns for every other row, and only for those.
   */
  function AsRead(row: Row): (result: Row)
    ensures LineText(Server, result) == LineText(Server, row)
    ensures |result| == |row| <==> row != []
    ensures row != [] ==> result == row
    ensures RowNulFree(row) ==> RowNulFree(result)
  {
    if row == [] then
      assert LineText(Server, [Some([])]) == ['\n'] by {
        assert Fields(Server, [Some([])], '\n') == [] + (['\n'] + []);
      }
      [Some([])]
    else row
  }

  // ---------- the text that is read ----------

  /**
    What `strpbrk` meets in the rest of an escaped text: a run of characters that stand for
    themselves, and then an escape or the end of the text.
   */
  lemma {:induction false} PlainRun(s: string) returns (n: nat)
    requires NulFree(s)
    ensures n <= |s| && NoBreak(s[..n])
    ensures n < |s| ==> Special(s[n])
    ensures Escape(Server, s) == s[..n] + Escape(Server, s[n..])
  {
    n := 0;
    assert s[0..] == s;
    while n < |s| && !Special(s[n])
      invariant n <= |s| && NoBreak(s[..n])
      invariant Escape(Server, s) == s[..n] + Escape(Server, s[n..])
    {
      assert s[n..][1..] == s[n + 1..];
      assert s[..n + 1] == s[..n] + [s[n]];
      Associative(s[..n], [s[n]], Escape(Server, s[n + 1..]));
      n := n + 1;
    }
  }

  /** The characters of a field; a NULL has none. */
  function Text(field: Option<string>): string {
    match field case None => [] case Some(s) => s
  }

  function Delim(row: Row, i: nat): char { if i + 1 == |row| then '\n' else '\t' }

  /** The delimiter of field `i` and everything behind it, up to the terminating NUL. */
  function After(row: Row, i: nat): string
    requires i < |row|
  {
    [Delim(row, i)] + (Fields(Server, row[i + 1..], '\n') + [NUL])
  }

  /** What is left to read when `k` characters of field `i` have been read. */
  function Remaining(row: Row, i: nat, k: nat): string
    requires i < |row| && k <= |Text(row[i])|
  {
    (if row[i].None? then NULL_MARKER else Escape(Server, row[i].value[k..])) + After(row, i)
  }

  lemma StartOfField(row: Row, i: nat)
    requires i < |row|
    ensures Fields(Server, row[i..], '\n') + [NUL] == Remaining(row, i, 0)
  {
    var field := FieldText(Server, row[i]);
    var delimiter := [if i == |row| - 1 then '\n' else '\t'];
    var more := Fields(Server, row[i..][1..], '\n');
    assert row[i..][1..] == row[i + 1..];
    Associative(field, delimiter + more, [NUL]);
    Associative(delimiter, more, [NUL]);
    if row[i].Some? {
      assert row[i].value[0..] == row[i].value;
    }
  }

  lemma NextField(row: Row, i: nat)
    requires i < |row|
    ensures After(row, i)[0] == Delim(row, i)
    ensures i + 1 < |row| ==> After(row, i)[1..] == Remaining(row, i + 1, 0)
  {
    if i + 1 < |row| {
      StartOfField(row, i + 1);
    }
  }

  lemma EscapedCharacter(row: Row, i: nat, k: nat)
    requires i < |row| && row[i].Some? && k < |row[i].value| && Special(row[i].value[k])
    ensures Remaining(row, i, k)
         == ['\\', Code(Server, row[i].value[k])] + Remaining(row, i, k + 1)
  {
    var s := row[i].value;
    assert s[k..][1..] == s[k + 1..];
    Associative(Unit(Server, s[k]), Escape(Server, s[k + 1..]), After(row, i));
  }

  lemma EndOfField(row: Row, i: nat)
    requires i < |row| && row[i].Some?
    ensures Remaining(row, i, |row[i].value|) == After(row, i)
  {
    var s := row[i].value;
    assert s[|s|..] == [];
    assert [] + After(row, i) == After(row, i);
  }

  /** What is left to read starts with the escape of character `k`, or with the end of the field. */
  ghost predicate AtBreak(row: Row, i: nat, k: nat) {
    && i < |row| && k <= |Text(row[i])|
    && (row[i].Some? && k < |Text(row[i])| ==> Special(Text(row[i])[k]))
  }

  /** Behind a run of plain characters there is an escape or the end of the field. */
  lemma BreakIsNext(row: Row, i: nat, k: nat)
    requires AtBreak(row, i, k)
    ensures Remaining(row, i, k) != [] && Break(Remaining(row, i, k)[0])
  {
    if row[i].Some? {
      if k < |row[i].value| {
        EscapedCharacter(row, i, k);
      } else {
        EndOfField(row, i);
      }
    }
  }

  /** The run in front of the next break, and what is left to read behind it. */
  lemma NextBreak(row: Row, i: nat, k: nat) returns (run: string, newK: nat)
    requires i < |row| && k <= |Text(row[i])| && RowNulFree(row)
    ensures NoBreak(run) && newK == k + |run| && AtBreak(row, i, newK)
    ensures Text(row[i])[..k] + run == Text(row[i])[..newK]
    ensures Remaining(row, i, k) == run + Remaining(row, i, newK)
  {
    if row[i].None? {
      run, newK := [], k;
      NoRunOfNull(row, i, k, run);
    } else {
      run, newK := RunOfText(row, i, k);
    }
  }

  lemma NoRunOfNull(row: Row, i: nat, k: nat, run: string)
    requires i < |row| && row[i].None? && k <= |Text(row[i])| && run == []
    ensures NoBreak(run) && AtBreak(row, i, k) && Text(row[i])[..k] + run == Text(row[i])[..k]
    ensures Remaining(row, i, k) == run + Remaining(row, i, k)
  {
  }

  lemma RunOfText(row: Row, i: nat, k: nat) returns (run: string, newK: nat)
    requires i < |row| && row[i].Some? && k <= |Text(row[i])| && NulFree(row[i].value)
    ensures NoBreak(run) && newK == k + |run| && AtBreak(row, i, newK)
    ensures Text(row[i])[..k] + run == Text(row[i])[..newK]
    ensures Remaining(row, i, k) == run + Remaining(row, i, newK)
  {
    var s := row[i].value;
    var n := PlainRun(s[k..]);
    run, newK := s[k..][..n], k + n;
    assert s[k..][n..] == s[k + n..];
    Associative(run, Escape(Server, s[k + n..]), After(row, i));
    assert s[..k] + run == s[..k + n];
  }

  // ---------- the buffer ----------

  lemma HasConcat(buffer: seq<char>, p: nat, a: string, b: string)
    ensures Has(buffer, p, a + b) <==> Has(buffer, p, a) && Has(buffer, p + |a|, b)
  {
    if Has(buffer, p, a + b) {
      forall j | 0 <= j < |a| ensures buffer[p + j] == a[j] {
        assert (a + b)[j] == a[j];
      }
      forall j | 0 <= j < |b| ensures buffer[p + |a| + j] == b[j] {
        assert (a + b)[|a| + j] == b[j];
      }
    }
  }

  lemma CutHas(buffer: seq<char>, p: nat, s: string, a: string, b: string, q: nat)
    requires Has(buffer, p, s) && s == a + b && q == p + |a|
    ensures Has(buffer, p, a) && Has(buffer, q, b) && p + |s| == q + |b|
  {
    HasConcat(buffer, p, a, b);
  }

  /** What stands in a part of the buffer that stays the same, stays there. */
  lemma HasStill(before: seq<char>, after: seq<char>, p: nat, s: string)
    requires Has(before, p, s) && |after| == |before|
    requires forall j :: p <= j < p + |s| ==> after[j] == before[j]
    ensures Has(after, p, s)
  {
  }

  /** The first `i` fields are shown, and their texts end before `begin`. */
  ghost predicate Finished(buffer: seq<char>, begin: nat, data: seq<Option<nat>>, row: Row, i: nat) {
    && |data| == i <= |row|
    && forall j :: 0 <= j < i ==>
         Shows(buffer, data[j], row[j]) && (row[j].Some? ==> data[j].value + |row[j].value| < begin)
  }

  /** No write at or behind `begin` touches a finished field. */
  lemma FinishedStill(before: seq<char>, after: seq<char>, begin: nat, data: seq<Option<nat>>, row: Row, i: nat)
    requires Finished(before, begin, data, row, i) && |after| == |before|
    requires forall j :: 0 <= j < begin && j < |before| ==> after[j] == before[j]
    ensures Finished(after, begin, data, row, i)
  {
    forall j | 0 <= j < i && row[j].Some? ensures Shows(after, data[j], row[j]) {
      HasStill(before, after, data[j].value, row[j].value + [NUL]);
    }
  }

  /** From `read` on the buffer holds what is left to read, and nothing else. */
  ghost predicate Ahead(buffer: seq<char>, row: Row, i: nat, k: nat, read: nat) {
    && i < |row| && k <= |Text(row[i])|
    && read + |Remaining(row, i, k)| == |buffer| && Has(buffer, read, Remaining(row, i, k))
  }

  /** `k` characters of field `i` stand unescaped between `begin` and `write`. */
  ghost predicate Current(buffer: seq<char>, row: Row, i: nat, k: nat, write: nat, begin: nat) {
    && i < |row| && k <= |Text(row[i])|
    && begin + k == write && Has(buffer, begin, Text(row[i])[..k])
  }

  /** How far the loop of `ParseData` has come. */
  ghost predicate Reached(buffer: seq<char>, data: seq<Option<nat>>, row: Row, i: nat, k: nat,
                          read: nat, write: nat, begin: nat)
  {
    && write <= read
    && Ahead(buffer, row, i, k, read)
    && Current(buffer, row, i, k, write, begin)
    && Finished(buffer, begin, data, row, i)
  }

  /** The effect of `memmove` to the left. */
  ghost predicate Moved(before: seq<char>, after: seq<char>, write: nat, read: nat, n: nat) {
    && |after| == |before| && write <= read && read + n <= |before|
    && (forall j :: 0 <= j < write || write + n <= j < |after| ==> after[j] == before[j])
    && (forall j :: write <= j < write + n ==> after[j] == before[read + (j - write)])
  }

  lemma CutAhead(buffer: seq<char>, row: Row, i: nat, k: nat, read: nat, run: string, newK: nat, pos: nat)
    requires Ahead(buffer, row, i, k, read) && newK <= |Text(row[i])|
    requires newK == k + |run| && pos == read + |run|
    requires Remaining(row, i, k) == run + Remaining(row, i, newK)
    ensures Has(buffer, read, run) && Ahead(buffer, row, i, newK, pos)
  {
    CutHas(buffer, read, Remaining(row, i, k), run, Remaining(row, i, newK), pos);
  }

  lemma AheadStill(before: seq<char>, after: seq<char>, row: Row, i: nat, k: nat, read: nat)
    requires Ahead(before, row, i, k, read) && |after| == |before|
    requires forall j :: read <= j < |after| ==> after[j] == before[j]
    ensures Ahead(after, row, i, k, read)
  {
  }

  /** The run in front of the next break, as `strpbrk` finds it in the buffer. */
  lemma RunAhead(buffer: seq<char>, row: Row, i: nat, k: nat, read: nat) returns (run: string, newK: nat)
    requires Ahead(buffer, row, i, k, read) && RowNulFree(row)
    ensures newK == k + |run| && AtBreak(row, i, newK)
    ensures Text(row[i])[..k] + run == Text(row[i])[..newK]
    ensures Remaining(row, i, k) == run + Remaining(row, i, newK)
    ensures read + |run| < |buffer| && Has(buffer, read, run) && NoBreak(run)
    ensures Break(buffer[read + |run|])
  {
    run, newK := NextBreak(row, i, k);
    CutAhead(buffer, row, i, k, read, run, newK, read + |run|);
    BreakIsNext(row, i, newK);
    assert buffer[read + |run| + 0] == Remaining(row, i, newK)[0];
  }

  lemma CurrentMoved(before: seq<char>, after: seq<char>, row: Row, i: nat, k: nat,
                     read: nat, write: nat, begin: nat, run: string, newK: nat, newWrite: nat)
    requires Current(before, row, i, k, write, begin) && newK <= |Text(row[i])|
    requires newK == k + |run| && newWrite == write + |run|
    requires Text(row[i])[..k] + run == Text(row[i])[..newK]
    requires Has(before, read, run) && Moved(before, after, write, read, |run|)
    ensures Current(after, row, i, newK, newWrite, begin)
  {
    HasStill(before, after, begin, Text(row[i])[..k]);
    HasConcat(after, begin, Text(row[i])[..k], run);
  }

  lemma RunMoved(before: seq<char>, after: seq<char>, data: seq<Option<nat>>, row: Row, i: nat, k: nat,
                 read: nat, write: nat, begin: nat, run: string, newK: nat, pos: nat, newWrite: nat)
    requires Reached(before, data, row, i, k, read, write, begin) && newK <= |Text(row[i])|
    requires newK == k + |run| && pos == read + |run| && newWrite == write + |run|
    requires Text(row[i])[..k] + run == Text(row[i])[..newK]
    requires Remaining(row, i, k) == run + Remaining(row, i, newK)
    requires Moved(before, after, write, read, |run|)
    ensures Reached(after, data, row, i, newK, pos, newWrite, begin)
  {
    CutAhead(before, row, i, k, read, run, newK, pos);
    CurrentMoved(before, after, row, i, k, read, write, begin, run, newK, newWrite);
    AheadStill(before, after, row, i, newK, pos);
    FinishedStill(before, after, begin, data, row, i);
  }

  /** The break at `pos` tells what to do: end a text, end a NULL, or unescape a character. */
  lemma BreakKind(buffer: seq<char>, row: Row, i: nat, k: nat, pos: nat)
    requires Ahead(buffer, row, i, k, pos) && AtBreak(row, i, k)
    ensures pos + 1 < |buffer| && Break(buffer[pos])
    ensures buffer[pos] != '\\' ==>
              row[i].Some? && k == |Text(row[i])| && buffer[pos] == Delim(row, i)
              && Has(buffer, pos, After(row, i)) && pos + |After(row, i)| == |buffer|
    ensures buffer[pos] == '\\' && row[i].None? ==>
              pos + 2 < |buffer| && buffer[pos + 1] == 'N' && Has(buffer, pos + 2, After(row, i))
              && buffer[pos + 2] == Delim(row, i) && pos + 2 + |After(row, i)| == |buffer|
    ensures buffer[pos] == '\\' && row[i].Some? ==>
              k < |Text(row[i])| && buffer[pos + 1] == Code(Server, Text(row[i])[k])
              && Ahead(buffer, row, i, k + 1, pos + 2)
  {
    var rest := Remaining(row, i, k);
    assert Has(buffer, pos, rest);
    if row[i].None? {
      CutHas(buffer, pos, rest, NULL_MARKER, After(row, i), pos + 2);
      assert buffer[pos + 0] == NULL_MARKER[0] && buffer[pos + 1] == NULL_MARKER[1];
      assert buffer[pos + 2 + 0] == After(row, i)[0];
    } else if k < |Text(row[i])| {
      EscapedCharacter(row, i, k);
      var unit := Unit(Server, Text(row[i])[k]);
      CutHas(buffer, pos, rest, unit, Remaining(row, i, k + 1), pos + 2);
      assert buffer[pos + 0] == unit[0] && buffer[pos + 1] == unit[1];
    } else {
      EndOfField(row, i);
      assert buffer[pos + 0] == After(row, i)[0];
    }
  }

  /** The unescaped character is written where the current field ends. */
  lemma Unescaped(before: seq<char>, after: seq<char>, data: seq<Option<nat>>, row: Row, i: nat, k: nat,
                  pos: nat, write: nat, begin: nat, newK: nat, read: nat, newWrite: nat)
    requires Reached(before, data, row, i, k, pos, write, begin) && write < |before|
    requires k < |Text(row[i])| && after == before[write := Text(row[i])[k]]
    requires newK == k + 1 && read == pos + 2 && newWrite == write + 1
    requires Ahead(before, row, i, newK, read)
    ensures Reached(after, data, row, i, newK, read, newWrite, begin)
  {
    AheadStill(before, after, row, i, newK, read);
    FinishedStill(before, after, begin, data, row, i);
    HasStill(before, after, begin, Text(row[i])[..k]);
    assert Text(row[i])[..newK] == Text(row[i])[..k] + [after[write]];
    HasConcat(after, begin, Text(row[i])[..k], [after[write]]);
  }

  /** A NUL behind the unescaped text finishes a field. */
  lemma TextFinished(before: seq<char>, after: seq<char>, data: seq<Option<nat>>, row: Row, i: nat, k: nat,
                     pos: nat, write: nat, begin: nat, read: nat)
    requires Reached(before, data, row, i, k, pos, write, begin) && pos < |before|
    requires row[i].Some? && k == |Text(row[i])| && after == before[write := NUL] && read == pos + 1
    ensures Finished(after, read, data + [Some(begin)], row, i + 1)
  {
    var s := row[i].value;
    FinishedStill(before, after, begin, data, row, i);
    assert s[..k] == s;
    HasStill(before, after, begin, s);
    HasConcat(after, begin, s, [NUL]);
    FinishedNext(after, begin, data, row, i, Some(begin), read);
  }

  lemma FinishedNext(buffer: seq<char>, begin: nat, data: seq<Option<nat>>, row: Row, i: nat,
                     entry: Option<nat>, newBegin: nat)
    requires Finished(buffer, begin, data, row, i) && i < |row| && begin <= newBegin
    requires Shows(buffer, entry, row[i]) && (row[i].Some? ==> entry.value + |row[i].value| < newBegin)
    ensures Finished(buffer, newBegin, data + [entry], row, i + 1)
  {
  }

  /** Behind the delimiter the next field starts. */
  lemma FieldStarts(before: seq<char>, after: seq<char>, data: seq<Option<nat>>, row: Row, i: nat,
                    pos: nat, read: nat)
    requires i + 1 < |row| && read == pos + 1 && Finished(after, read, data, row, i + 1)
    requires Has(before, pos, After(row, i)) && pos + |After(row, i)| == |before| == |after|
    requires forall j :: pos < j < |before| ==> after[j] == before[j]
    ensures Reached(after, data, row, i + 1, 0, read, read, read)
  {
    NextField(row, i);
    var rest := Remaining(row, i + 1, 0);
    assert After(row, i) == [Delim(row, i)] + rest;
    CutHas(before, pos, After(row, i), [Delim(row, i)], rest, read);
    HasStill(before, after, read, rest);
    assert Text(row[i + 1])[..0] == [];
  }

  lemma LineStarts(buffer: seq<char>, row: Row)
    requires row != [] && buffer == LineText(Server, row) + [NUL]
    ensures Reached(buffer, [], row, 0, 0, 0, 0, 0)
  {
    StartOfField(row, 0);
    assert row[0..] == row;
    assert Text(row[0])[..0] == [];
  }

  /** The character that the letter behind a backslash stands for. */
  function Letter(letter: char): char {
    match letter
    case 'b' => BACKSPACE
    case 'f' => FORM_FEED
    case 'n' => '\n'
    case 'r' => '\r'
    case 't' => '\t'
    case 'v' => VERTICAL_TAB
    case _ => letter
  }

  lemma LetterOfCode(c: char)
    requires Special(c)
    ensures Letter(Code(Server, c)) == c
  {
  }

  /** An escape is replaced by the character it stands for. */
  lemma EscapeRead(before: seq<char>, data: seq<Option<nat>>, row: Row, i: nat, k: nat, pos: nat, write: nat,
                   begin: nat, c: char)
    requires Reached(before, data, row, i, k, pos, write, begin) && AtBreak(row, i, k)
    requires pos + 1 < |before| && before[pos] == '\\' && before[pos + 1] != 'N' && c == Letter(before[pos + 1])
    ensures Reached(before[write := c], data, row, i, k + 1, pos + 2, write + 1, begin)
  {
    BreakKind(before, row, i, k, pos);
    LetterOfCode(Text(row[i])[k]);
    Unescaped(before, before[write := c], data, row, i, k, pos, write, begin, k + 1, pos + 2, write + 1);
  }

  lemma CodeIsNotN(row: Row, i: nat, k: nat)
    requires AtBreak(row, i, k)
    ensures row[i].Some? && k < |Text(row[i])| ==> Code(Server, Text(row[i])[k]) != 'N'
  {
  }

  /** Field `i` is done, and unless it was the last one the next field starts at `read`. */
  ghost predicate Ended(buffer: seq<char>, data: seq<Option<nat>>, row: Row, i: nat, read: nat) {
    && Finished(buffer, read, data, row, i + 1)
    && (i + 1 < |row| ==> Reached(buffer, data, row, i + 1, 0, read, read, read))
  }

  lemma BreakInBuffer(buffer: seq<char>, row: Row, i: nat, k: nat, pos: nat)
    requires Ahead(buffer, row, i, k, pos) && AtBreak(row, i, k)
    ensures pos + 1 < |buffer| && Break(buffer[pos])
  {
    BreakKind(buffer, row, i, k, pos);
  }

  /** The C string that starts at `p`. */
  function CString(buffer: seq<char>, p: nat): string
    requires p <= |buffer|
    decreases |buffer| - p
  {
    if p == |buffer| || buffer[p] == NUL then [] else [buffer[p]] + CString(buffer, p + 1)
  }

  /** The row as the kept pointers give it. */
  function Fetch(buffer: seq<char>, data: seq<Option<nat>>): Row {
    seq(|data|, i requires 0 <= i < |data| =>
      if data[i].None? || data[i].value > |buffer| then None else Some(CString(buffer, data[i].value)))
  }

  lemma {:induction false} CStringIsText(buffer: seq<char>, p: nat, s: string)
    requires Has(buffer, p, s + [NUL]) && NulFree(s)
    ensures CString(buffer, p) == s
    decreases |s|
  {
    assert buffer[p + 0] == (s + [NUL])[0];
    if s != [] {
      assert s + [NUL] == [s[0]] + (s[1..] + [NUL]);
      CutHas(buffer, p, s + [NUL], [s[0]], s[1..] + [NUL], p + 1);
      CStringIsText(buffer, p + 1, s[1..]);
    }
  }

  /** For texts without NUL the kept pointers give back the row. */
  lemma RowIsFetched(buffer: seq<char>, data: seq<Option<nat>>, row: Row)
    requires ShowsRow(buffer, data, row) && RowNulFree(row)
    ensures Fetch(buffer, data) == row
  {
    forall i | 0 <= i < |row| ensures Fetch(buffer, data)[i] == row[i] {
      if row[i].Some? {
        CStringIsText(buffer, data[i].value, row[i].value);
      }
    }
  }

  // ---------- iterating over the rows ----------

  /** The rows seen so far, and those that are still to be seen. */
  function Onto(seen: seq<Row>, more: Option<seq<Row>>): Option<seq<Row>> {
    match more case None => None case Some(rows) => Some(seen + rows)
  }

  /**
    The rows that a loop from `begin()` to `end()` sees. `it` is the number of columns of the row
    that the iterator is, and two iterators are equal when these numbers are; `entries` is what the
    reader holds, nothing when there was no line. None: an entry is read that does not exist.
   */
  function Visit(columns: nat, it: nat, entries: Row, rest: seq<Row>): Option<seq<Row>>
    decreases |rest|, it
  {
    if it == 0 then Some([])
    else if |entries| < it then None
    else Onto([entries[..it]], if rest == [] then Some([]) else Visit(columns, columns, AsRead(rest[0]), rest[1..]))
  }

  /** `begin()` reads the first line, and is a row of all columns whether there was one or not. */
  function Iteration(columns: nat, rows: seq<Row>): Option<seq<Row>> {
    if rows == [] then Visit(columns, columns, [], []) else Visit(columns, columns, AsRead(rows[0]), rows[1..])
  }

  predicate AllHave(columns: nat, rows: seq<Row>) {
    forall i :: 0 <= i < |rows| ==> |rows[i]| == columns
  }

  lemma {:induction false} VisitIsAll(columns: nat, entries: Row, rest: seq<Row>)
    requires columns > 0 && |entries| == columns && AllHave(columns, rest)
    ensures Visit(columns, columns, entries, rest) == Some([entries] + rest)
    decreases |rest|
  {
    assert entries[..columns] == entries;
    assert [entries] + [] == [entries];
    if rest != [] {
      VisitIsAll(columns, rest[0], rest[1..]);
      assert [rest[0]] + rest[1..] == rest;
    }
  }

  /**
    The loop sees exactly the rows of the table when the table has both columns and rows, or neither.
    It reads an entry that does not exist exactly when there are columns and no rows; without columns
    it sees no row at all.
   */
  lemma IterationIsExact(columns: nat, rows: seq<Row>)
    requires AllHave(columns, rows)
    ensures Iteration(columns, rows) == Some(rows) <==> (columns > 0 <==> rows != [])
    ensures Iteration(columns, rows) == None <==> columns > 0 && rows == []
    ensures columns == 0 ==> Iteration(columns, rows) == Some([])
  {
    if columns > 0 && rows != [] {
      VisitIsAll(columns, rows[0], rows[1..]);
      assert [rows[0]] + rows[1..] == rows;
    }
  }

  /** The table with one column and no row. */
  lemma EmptyTableIsMisread()
    ensures Iteration(1, []) == None
  {
    IterationIsExact(1, []);
  }

  lemma OntoNothing(more: Option<seq<Row>>)
    ensures Onto([], more) == more
  {
    assert more.Some? ==> [] + more.value == more.value;
  }

  lemma OntoNext(seen: seq<Row>, row: Row, more: Option<seq<Row>>)
    ensures Onto(seen, Onto([row], more)) == Onto(seen + [row], more)
  {
    if more.Some? {
      assert seen + ([row] + more.value) == seen + [row] + more.value;
    }
  }

  class TableReader {
    const columns: nat
    var buffer: array?<char>
    var data: seq<Option<nat>>

    /** The lines that the server has still to send; `m_transaction` is null after their end was seen. */
    var lines: seq<string>
    var active: bool

    constructor (columns: nat, lines: seq<string>)
      ensures this.columns == columns && this.lines == lines && active
      ensures buffer == null && data == []
    {
      this.columns := columns;
      this.lines := lines;
      active := true;
      buffer := null;
      data := [];
    }

    /** `std::strpbrk( read, "\t\\\n" )` on a buffer that is known to hold a break behind `run`. */
    method FindBreak(read: nat, ghost run: string) returns (pos: nat)
      requires buffer != null && read + |run| < buffer.Length
      requires Has(buffer[..], read, run) && NoBreak(run) && Break(buffer[read + |run|])
      ensures pos == read + |run|
    {
      pos := read;
      while buffer[pos] != NUL && !Break(buffer[pos])
        invariant read <= pos <= read + |run|
        invariant pos < read + |run| ==> buffer[pos] == run[pos - read]
        decreases buffer.Length - pos
      {
        pos := pos + 1;
        assert pos < read + |run| ==> buffer[..][read + (pos - read)] == run[pos - read];
      }
    }

    /** `std::memmove` inside the buffer, to the left. */
    method MoveDown(write: nat, read: nat, n: nat)
      requires buffer != null && write <= read && read + n <= buffer.Length
      modifies buffer
      ensures Moved(old(buffer[..]), buffer[..], write, read, n)
    {
      forall j | 0 <= j < n {
        buffer[write + j] := buffer[read + j];
      }
      assert forall j :: write <= j < write + n ==> buffer[j] == old(buffer[read + (j - write)]);
    }

    /** `*write = c` */
    method Put(write: nat, c: char)
      requires buffer != null && write < buffer.Length
      modifies buffer
      ensures buffer[..] == old(buffer[..])[write := c]
    {
      buffer[write] := c;
    }

    /** The run of plain characters in front of the next break is moved down to `write`. */
    method MoveRun(ghost row: Row, ghost i: nat, ghost k: nat, read: nat, write: nat, begin: nat)
      returns (pos: nat, newWrite: nat, ghost newK: nat)
      requires RowNulFree(row)
      requires buffer != null && Reached(buffer[..], data, row, i, k, read, write, begin)
      modifies buffer
      ensures Reached(buffer[..], data, row, i, newK, pos, newWrite, begin)
      ensures AtBreak(row, i, newK) && read <= pos
    {
      ghost var before := buffer[..];
      ghost var run;
      run, newK := RunAhead(before, row, i, k, read);
      pos := FindBreak(read, run);
      newWrite := write + (pos - read);
      if pos > read {
        MoveDown(write, read, pos - read);
      }
      RunMoved(before, buffer[..], data, row, i, k, read, write, begin, run, newK, pos, newWrite);
    }

    /** The end of a text: its pointer is kept and a NUL is written behind it. */
    method EndText(ghost row: Row, ghost i: nat, ghost k: nat, pos: nat, write: nat, begin: nat)
      returns (delimiter: char, read: nat)
      requires buffer != null && Reached(buffer[..], data, row, i, k, pos, write, begin) && AtBreak(row, i, k)
      requires pos < buffer.Length && buffer[pos] != '\\'
      modifies this`data, buffer
      ensures pos < read && delimiter == Delim(row, i) && Ended(buffer[..], data, row, i, read)
    {
      delimiter, read := buffer[pos], pos + 1;
      ghost var before := buffer[..];
      BreakKind(before, row, i, k, pos);
      buffer[write] := NUL;
      TextFinished(before, buffer[..], data, row, i, k, pos, write, begin, read);
      data := data + [Some(begin)];
      if i + 1 < |row| {
        FieldStarts(before, buffer[..], data, row, i, pos, read);
      }
    }

    /** The escape `\N`: a null pointer is kept. */
    method EndNull(ghost row: Row, ghost i: nat, ghost k: nat, pos: nat, ghost write: nat, ghost begin: nat)
      returns (delimiter: char, read: nat)
      requires buffer != null && Reached(buffer[..], data, row, i, k, pos, write, begin) && AtBreak(row, i, k)
      requires pos + 1 < buffer.Length && buffer[pos] == '\\' && buffer[pos + 1] == 'N'
      modifies this`data
      ensures pos < read && delimiter == Delim(row, i) && Ended(buffer[..], data, row, i, read)
    {
      BreakKind(buffer[..], row, i, k, pos);
      CodeIsNotN(row, i, k);
      delimiter, read := buffer[pos + 2], pos + 3;
      FinishedNext(buffer[..], begin, data, row, i, None, read);
      data := data + [None];
      if i + 1 < |row| {
        FieldStarts(buffer[..], buffer[..], data, row, i, pos + 2, read);
      }
    }

    /** Any other escape: the character it stands for is written. */
    method EndEscape(ghost row: Row, ghost i: nat, ghost k: nat, pos: nat, write: nat, ghost begin: nat)
      returns (read: nat, newWrite: nat, ghost newK: nat)
      requires buffer != null && Reached(buffer[..], data, row, i, k, pos, write, begin) && AtBreak(row, i, k)
      requires pos + 1 < buffer.Length && buffer[pos] == '\\' && buffer[pos + 1] != 'N'
      modifies buffer
      ensures pos < read && Reached(buffer[..], data, row, i, newK, read, newWrite, begin)
    {
      read, newWrite, newK := pos + 2, write + 1, k + 1;
      ghost var before := buffer[..];
      var c := Letter(buffer[pos + 1]);
      EscapeRead(before, data, row, i, k, pos, write, begin, c);
      Put(write, c);
    }

    /** The end of a field: a tab, a newline, or the escape of NULL and what follows it. */
    method EndField(ghost row: Row, ghost i: nat, ghost k: nat, pos: nat, write: nat, begin: nat)
      returns (delimiter: char, read: nat)
      requires buffer != null && Reached(buffer[..], data, row, i, k, pos, write, begin) && AtBreak(row, i, k)
      requires pos + 1 < buffer.Length && (buffer[pos] == '\\' ==> buffer[pos + 1] == 'N')
      modifies this`data, buffer
      ensures pos < read && delimiter == Delim(row, i) && Ended(buffer[..], data, row, i, read)
    {
      if buffer[pos] == '\\' {
        delimiter, read := EndNull(row, i, k, pos, write, begin);
      } else {
        delimiter, read := EndText(row, i, k, pos, write, begin);
      }
    }

    /** The loop of `parse_data` on the line of a row with at least one column. */
    method ParseFields(ghost row: Row)
      requires buffer != null && row != [] && RowNulFree(row)
      requires buffer[..] == LineText(Server, row) + [NUL] && data == []
      modifies this`data, buffer
      ensures ShowsRow(buffer[..], data, row)
    {
      var read: nat := 0;
      var write, begin: nat := read, read;
      ghost var i, k := 0, 0;
      LineStarts(buffer[..], row);
      while true
        invariant Reached(buffer[..], data, row, i, k, read, write, begin)
        decreases buffer.Length - read
      {
        var pos;
        pos, write, k := MoveRun(row, i, k, read, write, begin);
        BreakInBuffer(buffer[..], row, i, k, pos);
        if buffer[pos] == '\\' && buffer[pos + 1] != 'N' {
          read, write, k := EndEscape(row, i, k, pos, write, begin);
        } else {
          var delimiter;
          delimiter, read := EndField(row, i, k, pos, write, begin);
          if delimiter == '\n' {
            return;
          }
          write, begin, i, k := read, read, i + 1, 0;
        }
      }
    }

    /**
      `parse_data` on one line of COPY TO output. `row` is what the server encoded; the
      unreachable cases of the source's switches are unreachable for such a line.
     */
    method ParseData(ghost row: Row) returns (ok: bool)
      requires buffer != null ==> RowNulFree(row) && buffer[..] == LineText(Server, row) + [NUL]
      modifies this`data, buffer
      ensures ok == (buffer != null)
      ensures !ok ==> data == []
      ensures ok ==> ShowsRow(buffer[..], data, AsRead(row))
    {
      data := [];
      if buffer == null {
        return false;
      }
      ParseFields(AsRead(row));
      return true;
    }

    /** `get_raw_data`: a line in a new buffer, or none; then the transaction is given up. */
    method GetRawData()
      requires active
      modifies this`buffer, this`lines, this`active
      ensures buffer == null || fresh(buffer)
      ensures active == (buffer != null) == (old(lines) != [])
      ensures active ==> buffer[..] == old(lines)[0] + [NUL] && lines == old(lines)[1..]
    {
      buffer := null;
      if lines == [] {
        active := false;
      } else {
        var text := lines[0] + [NUL];
        lines := lines[1..];
        buffer := new char[|text|](i requires 0 <= i < |text| => text[i]);
        assert buffer[..] == text;
      }
    }

    /** The lines are those of `rows`. */
    ghost predicate Sends(rows: seq<Row>)
      reads this
    {
      && active && |lines| == |rows|
      && forall i :: 0 <= i < |rows| ==>
           RowNulFree(rows[i]) && |rows[i]| == columns && lines[i] == LineText(Server, rows[i])
    }

    /** The pointers show the fields of one row, or there are none. */
    ghost predicate HasEntries(entries: Row)
      reads this, buffer
    {
      && (buffer == null ==> entries == [] && data == [])
      && (buffer != null ==> ShowsRow(buffer[..], data, entries) && RowNulFree(entries))
    }

    /** `get_row` */
    method GetRow(ghost rows: seq<Row>) returns (ok: bool)
      requires Sends(rows)
      modifies this, buffer
      ensures buffer == null || fresh(buffer)
      ensures ok == (rows != [])
      ensures ok ==> Sends(rows[1..]) && HasEntries(AsRead(rows[0]))
      ensures !ok ==> !active && HasEntries([])
    {
      GetRawData();
      ok := ParseData(if rows == [] then [] else rows[0]);
    }

    /** `begin()`: what `get_row` returns is ignored. */
    method Begin(ghost rows: seq<Row>) returns (it: nat)
      requires Sends(rows)
      modifies this, buffer
      ensures buffer == null || fresh(buffer)
      ensures it == columns
      ensures rows != [] ==> Sends(rows[1..]) && HasEntries(AsRead(rows[0]))
      ensures rows == [] ==> !active && HasEntries([])
    {
      var _ := GetRow(rows);
      it := columns;
    }

    /** `operator++`: the end of the data makes the iterator equal to `end()`. */
    method Increment(it: nat, ghost rows: seq<Row>) returns (next: nat)
      requires Sends(rows)
      modifies this, buffer
      ensures buffer == null || fresh(buffer)
      ensures next == if rows == [] then 0 else it
      ensures rows != [] ==> Sends(rows[1..]) && HasEntries(AsRead(rows[0]))
      ensures rows == [] ==> !active && HasEntries([])
    {
      var ok := GetRow(rows);
      next := if ok then it else 0;
    }

    /** `row.as< T >()`: one entry of `m_data` for every column. None: there is no such entry. */
    method ReadRow(it: nat, ghost entries: Row) returns (row: Option<Row>)
      requires HasEntries(entries)
      ensures row == if |entries| < it then None else Some(entries[..it])
    {
      if buffer != null {
        RowIsFetched(buffer[..], data, entries);
      }
      var fields: Row := [];
      for column := 0 to it
        invariant column <= |data| && fields == entries[..column]
      {
        if column >= |data| {
          return None;
        }
        var fetched := Fetch(buffer[..], data);
        fields := fields + [fetched[column]];
      }
      return Some(fields);
    }

    /** `as_container`: the loop over the rows. */
    method AsContainer(ghost rows: seq<Row>) returns (result: Option<seq<Row>>)
      requires Sends(rows)
      modifies this, buffer
      ensures result == Iteration(columns, rows)
    {
      var nrv: seq<Row> := [];
      var it := Begin(rows);
      ghost var entries := if rows == [] then [] else AsRead(rows[0]);
      ghost var rest := if rows == [] then [] else rows[1..];
      OntoNothing(Iteration(columns, rows));
      while it != 0
        invariant buffer == null || fresh(buffer)
        invariant it == 0 || it == columns
        invariant it != 0 ==> HasEntries(entries) && (entries != [] ==> Sends(rest)) && (entries == [] ==> rest == [])
        invariant Onto(nrv, Visit(columns, it, entries, rest)) == Iteration(columns, rows)
        decreases |rest| + 1, it
      {
        var row := ReadRow(it, entries);
        if row.None? {
          return None;
        }
        OntoNext(nrv, row.value, if rest == [] then Some([]) else Visit(columns, columns, AsRead(rest[0]), rest[1..]));
        nrv := nrv + [row.value];
        it := Increment(it, rest);
        entries, rest := if rest == [] then [] else AsRead(rest[0]), if rest == [] then [] else rest[1..];
      }
      assert nrv + [] == nrv;
      return Some(nrv);
    }
  }
}
