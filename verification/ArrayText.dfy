/**
  The text form of arrays (section 8.15.6 of the PostgreSQL documentation): what the client prints
  for a nested container, and the type-directed parser that reads such a text.

  A `const char*` into a text is modelled by the characters from there to the terminating NUL. The
  parser can be led past that NUL, which the outcome `Overran` stands for.
 */
module ArrayText {
  import opened Basics

  /** The element types: strings, `std::optional` and containers. */
  datatype Type = Text | Optional(of: Type) | Array(of: Type)

  datatype Value = Str(s: string) | Nothing | Just(v: Value) | Items(vs: seq<Value>)

  predicate HasType(v: Value, ty: Type)
    decreases ty, 1
  {
    match ty
    case Text => v.Str?
    case Optional(t) => v == Nothing || (v.Just? && HasType(v.v, t))
    case Array(t) => v.Items? && AllHaveType(v.vs, t)
  }

  predicate AllHaveType(vs: seq<Value>, ty: Type)
    decreases ty, 2, |vs|
  {
    vs == [] || (HasType(vs[0], ty) && AllHaveType(vs[1..], ty))
  }

  // ---------- printing ----------

  /** The characters that force a text into quotes. */
  predicate NeedsQuotes(c: char) {
    c == '\\' || c == '"' || c == '{' || c == '}' || c == ',' || c == ';' || c == ' ' || c == '\t'
  }

  predicate Escaped(c: char) { c == '\\' || c == '"' }

  const NULL: string := ['N', 'U', 'L', 'L']

  /** One character inside quotes. */
  function Unit(c: char): string { if Escaped(c) then ['\\', c] else [c] }

  function EscapeQuoted(s: string): string {
    if s == [] then [] else Unit(s[0]) + EscapeQuoted(s[1..])
  }

  predicate Plain(s: string) { forall i :: 0 <= i < |s| ==> !NeedsQuotes(s[i]) }

  /** What `array_append` appends for a text. */
  function Appended(s: string): string {
    if s != [] && s != NULL && Plain(s) then s else ['"'] + (EscapeQuoted(s) + ['"'])
  }

  /** `to_array`: an inner container is printed in place, everything else is an element. */
  function Printed(v: Value): string
    decreases v, if v.Items? then 1 else 3
  {
    if v.Items? then ['{'] + (if v.vs == [] then ['}'] else PrintedItems(v.vs, '}')) else Element(v)
  }

  /** The elements with a comma after each of them, except for the last one, which `end` follows. */
  function PrintedItems(vs: seq<Value>, end: char): string
    requires vs != []
    decreases vs, 0
  {
    Printed(vs[0]) + (if |vs| == 1 then [end] else [','] + PrintedItems(vs[1..], end))
  }

  /** `parameter_traits::element`: a container behind an optional becomes one quoted text. */
  function Element(v: Value): string
    decreases v, 2
  {
    match v
    case Str(s) => Appended(s)
    case Nothing => NULL
    case Just(w) => Element(w)
    case Items(_) => Appended(Printed(v))
  }

  // ---------- parsing ----------

  /** What a parser does with a text: a value and the rest of the text, or a failure. */
  datatype Parsed<+T> = Parsed(value: T, rest: string) | Threw | Overran

  function Peek(text: string): char { if text == [] then NUL else text[0] }

  function Prepend(c: char, p: Parsed<string>): Parsed<string> {
    match p case Parsed(s, rest) => Parsed([c] + s, rest) case _ => p
  }

  /** The text up to the closing quote. */
  function Quoted(text: string): (p: Parsed<string>)
    ensures p.Parsed? ==> |p.rest| < |text|
  {
    if text == [] then Threw
    else if text[0] == '"' then Parsed([], text[1..])
    else if text[0] != '\\' then Prepend(text[0], Quoted(text[1..]))
    else if |text| == 1 then Overran
    else Prepend(text[1], Quoted(text[2..]))
  }

  predicate EndsUnquoted(c: char) { c == ',' || c == ';' || c == '}' }

  /** The text up to a delimiter, which stays in the rest. */
  function Unquoted(text: string): (p: Parsed<string>)
    ensures p.Parsed? ==> |p.rest| <= |text| && p.rest != [] && EndsUnquoted(p.rest[0])
    ensures !p.Overran?
  {
    if text == [] then Threw
    else if EndsUnquoted(text[0]) then Parsed([], text)
    else Prepend(text[0], Unquoted(text[1..]))
  }

  /** `result_traits<T>::from` of a whole text. */
  function From(ty: Type, text: string): (p: Parsed<Value>)
    ensures p.Parsed? ==> p.rest == []
    decreases ty, 2
  {
    match ty
    case Text => Parsed(Str(text), [])
    case Optional(t) => (match From(t, text) case Parsed(v, rest) => Parsed(Just(v), rest) case other => other)
    case Array(t) =>
      match Parse(ty, text)
      case Parsed(v, rest) => if rest == [] then Parsed(v, rest) else Threw
      case other => other
  }

  /** `from` of a text that was cut out of a longer one. */
  function FromPart(ty: Type, part: Parsed<string>): (p: Parsed<Value>)
    ensures p.Parsed? ==> part.Parsed? && p.rest == part.rest
    decreases ty, 3
  {
    match part
    case Parsed(input, rest) => (match From(ty, input) case Parsed(v, _) => Parsed(v, rest) case other => other)
    case Threw => Threw
    case Overran => Overran
  }

  /** `parse<T>`. */
  function Parse(ty: Type, text: string): (p: Parsed<Value>)
    ensures p.Parsed? ==> |p.rest| <= |text|
    decreases ty, if ty.Array? then 1 else 4
  {
    if ty.Array? then
      if Peek(text) != '{' then Threw
      else if Peek(text[1..]) == '}' then Parsed(Items([]), text[2..])
      else
        match ParseItems(ty.of, text[1..])
        case Parsed(vs, rest) => Parsed(Items(vs), rest)
        case Threw => Threw
        case Overran => Overran
    else if Peek(text) == '"' then FromPart(ty, Quoted(text[1..]))
    else
      var part := Unquoted(text);
      if part.Parsed? && part.value == NULL then
        if ty.Optional? then Parsed(Nothing, part.rest) else Threw
      else FromPart(ty, part)
  }

  /** The elements of an array up to its closing brace. */
  function ParseItems(ty: Type, text: string): (p: Parsed<seq<Value>>)
    ensures p.Parsed? ==> |p.rest| < |text|
    decreases ty, 5, |text|
  {
    match Parse(ty, text)
    case Threw => Threw
    case Overran => Overran
    case Parsed(v, rest) =>
      if Peek(rest) == '}' then Parsed([v], rest[1..])
      else if Peek(rest) != ',' && Peek(rest) != ';' then Threw
      else
        match ParseItems(ty, rest[1..])
        case Parsed(vs, more) => Parsed([v] + vs, more)
        case other => other
  }
}
