/**
  What the server makes of the text form of arrays of texts: its input and output routines, as section
  8.15.6 of the PostgreSQL documentation describes them. Nothing here is shared with the client.
 */
module ArrayServer {
  import opened Basics

  /** What the server holds: texts and NULLs in nested arrays. */
  datatype Datum = Null | Txt(s: string) | Sub(items: seq<Datum>)

  predicate Space(c: char) {
    c == ' ' || c == '\t' || c == '\n' || c == '\r' || c == '\U{B}' || c == '\U{C}'
  }

  /** The word NULL in any case. */
  predicate SpellsNull(s: string) {
    && |s| == 4
    && (s[0] == 'N' || s[0] == 'n') && (s[1] == 'U' || s[1] == 'u')
    && (s[2] == 'L' || s[2] == 'l') && (s[3] == 'L' || s[3] == 'l')
  }

  // ---------- output ----------

  /** The characters that make the server quote a text. */
  predicate Guarded(c: char) { c == '{' || c == '}' || c == ',' || c == '"' || c == '\\' || Space(c) }

  predicate Bare(s: string) {
    s != [] && !SpellsNull(s) && forall i :: 0 <= i < |s| ==> !Guarded(s[i])
  }

  function OutEscaped(s: string): string {
    if s == [] then []
    else (if s[0] == '"' || s[0] == '\\' then ['\\', s[0]] else [s[0]]) + OutEscaped(s[1..])
  }

  function OutText(s: string): string {
    if Bare(s) then s else ['"'] + (OutEscaped(s) + ['"'])
  }

  /** An array, or an element of one. */
  function Out(d: Datum): string
    decreases d, 1
  {
    match d
    case Null => ['N', 'U', 'L', 'L']
    case Txt(s) => OutText(s)
    case Sub(items) => ['{'] + (if items == [] then ['}'] else OutItems(items))
  }

  function OutItems(items: seq<Datum>): string
    requires items != []
    decreases items, 0
  {
    Out(items[0]) + (if |items| == 1 then ['}'] else [','] + OutItems(items[1..]))
  }

  // ---------- input ----------

  /** What a part of the input routine reads, and the text behind it. */
  datatype In<+T> = Got(value: T, rest: string) | Malformed

  function SkipSpace(s: string): (rest: string)
    ensures |rest| <= |s|
  {
    if s != [] && Space(s[0]) then SkipSpace(s[1..]) else s
  }

  function First(s: string): char { if s == [] then NUL else s[0] }

  function Cons(c: char, r: In<string>): In<string> {
    match r case Got(s, rest) => Got([c] + s, rest) case Malformed => Malformed
  }

  /** The text up to the closing quote; a backslash protects the next character. */
  function InQuoted(s: string): (r: In<string>)
    ensures r.Got? ==> |r.rest| < |s|
  {
    if s == [] then Malformed
    else if s[0] == '"' then Got([], s[1..])
    else if s[0] != '\\' then Cons(s[0], InQuoted(s[1..]))
    else if |s| == 1 then Malformed
    else Cons(s[1], InQuoted(s[2..]))
  }

  /** A text without quotes; escaped: some character of it was protected by a backslash. */
  datatype Word = Word(s: string, escaped: bool)

  function ConsWord(c: char, escaped: bool, r: In<Word>): In<Word> {
    match r
    case Got(w, rest) => Got(Word([c] + w.s, escaped || w.escaped), rest)
    case Malformed => Malformed
  }

  /** Up to a comma or a closing brace, without the white space at the end. */
  function InBare(s: string): (r: In<Word>)
    ensures r.Got? ==> |r.rest| <= |s|
  {
    if s == [] || s[0] == '{' || s[0] == '"' then Malformed
    else if s[0] == ',' || s[0] == '}' then Got(Word([], false), s)
    else if s[0] == '\\' then
      if |s| == 1 then Malformed else ConsWord(s[1], true, InBare(s[2..]))
    else
      var r := InBare(s[1..]);
      if Space(s[0]) && r.Got? && r.value.s == [] then r else ConsWord(s[0], false, r)
  }

  /** The word NULL, when nothing in it is escaped, is not a text; a word cannot be empty. */
  function AsDatum(r: In<Word>): In<Datum> {
    match r
    case Malformed => Malformed
    case Got(w, rest) =>
      if w.s == [] then Malformed
      else if !w.escaped && SpellsNull(w.s) then Got(Null, rest)
      else Got(Txt(w.s), rest)
  }

  function AsText(r: In<string>): In<Datum> {
    match r case Got(s, rest) => Got(Txt(s), rest) case Malformed => Malformed
  }

  /** One element, with white space in front of it. */
  function InItem(s: string): (r: In<Datum>)
    ensures r.Got? ==> |r.rest| <= |s|
    decreases |s|, 2
  {
    var t := SkipSpace(s);
    if First(t) == '{' then InArray(t)
    else if First(t) == '"' then AsText(InQuoted(t[1..]))
    else AsDatum(InBare(t))
  }

  /** From the opening brace on. */
  function InArray(s: string): (r: In<Datum>)
    requires First(s) == '{'
    ensures r.Got? ==> |r.rest| <= |s|
    decreases |s|, 1
  {
    var t := SkipSpace(s[1..]);
    if First(t) == '}' then Got(Sub([]), t[1..])
    else
      match InItems(s[1..])
      case Got(items, rest) => Got(Sub(items), rest)
      case Malformed => Malformed
  }

  /** The elements up to the closing brace. */
  function InItems(s: string): (r: In<seq<Datum>>)
    ensures r.Got? ==> |r.rest| < |s|
    decreases |s|, 3
  {
    match InItem(s)
    case Malformed => Malformed
    case Got(item, rest) => Behind(item, SkipSpace(rest), |s|)
  }

  /** What follows an element. */
  function Behind(item: Datum, t: string, length: nat): (r: In<seq<Datum>>)
    requires |t| <= length
    ensures r.Got? ==> |r.rest| < length
    decreases length, 0
  {
    if First(t) == '}' then Got([item], t[1..])
    else if First(t) != ',' then Malformed
    else
      match InItems(t[1..])
      case Got(items, rest) => Got([item] + items, rest)
      case Malformed => Malformed
  }

  /** The whole text, which may have white space around it. */
  function ArrayIn(s: string): Option<Datum> {
    var t := SkipSpace(s);
    if First(t) != '{' then None
    else
      match InArray(t)
      case Got(d, rest) => if SkipSpace(rest) == [] then Some(d) else None
      case Malformed => None
  }
}
